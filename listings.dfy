/**
 * `ListingManager` of the seller dashboard: the edit, statistics, copy and
 * delete icons of the active-listings table.
 *
 * Rows are element identities (`key`); the listeners exist only on the rows
 * present when the manager was built (`wired`), since `cloneNode` copies no
 * listeners. Copy and delete only open a confirmation prompt: the table
 * changes when the prompt's Confirm button runs the closure, which holds the
 * row element and the item name taken when the icon was clicked.
 *
 * As for the orders, `this.showNotification`, `this.showModal` and
 * `this.showConfirmDialog` are not members of the class; the model calls
 * the page-wide services.
 */
module Listings {
  import opened Wrappers
  import opened Notifications
  import opened Modal

  /**
   * One row: its identity, the text of its `.listing-item span`, of its 4th
   * and 5th cells (views, watchers), the text of its other cells, and
   * whether its icons carry the manager's listeners.
   */
  datatype ListingRow = ListingRow(key: nat, name: string, views: string, watchers: string,
                                   otherCells: seq<string>, wired: bool)

  /** The four action icons of a row. */
  datatype Icon = EditIcon | StatsIcon | CopyIcon | TrashIcon

  ghost predicate UniqueKeys(rows: seq<ListingRow>) {
    forall i, j :: 0 <= i < j < |rows| ==> rows[i].key != rows[j].key
  }

  predicate HasKey(rows: seq<ListingRow>, key: nat) {
    exists i :: 0 <= i < |rows| && rows[i].key == key
  }

  /** The position of element `key` in the table, if it is still attached. */
  function RowIndex(rows: seq<ListingRow>, key: nat): (r: Option<nat>)
    ensures r.Some? ==> r.value < |rows| && rows[r.value].key == key
    ensures r.None? <==> !HasKey(rows, key)
  {
    if rows == [] then None
    else if rows[0].key == key then Some(0)
    else
      var t := RowIndex(rows[1..], key);
      assert forall i :: 1 <= i < |rows| ==> rows[i] == rows[1..][i - 1];
      if t.Some? then Some(t.value + 1) else None
  }

  /** `listingRow.cloneNode(true)` with its item renamed `itemName (Copy)`: a new element, without listeners. */
  function Copy(r: ListingRow, itemName: string, key: nat): (c: ListingRow)
    ensures c.key == key && c.name == itemName + " (Copy)" && !c.wired
    ensures c.views == r.views && c.watchers == r.watchers && c.otherCells == r.otherCells
  {
    r.(key := key, name := itemName + " (Copy)", wired := false)
  }

  /** `listingRow.remove()`: the table without element `key`, the other rows in order. */
  function Deleted(rows: seq<ListingRow>, key: nat): (r: seq<ListingRow>)
    ensures |r| <= |rows|
  {
    if rows == [] then []
    else (if rows[0].key == key then [] else [rows[0]]) + Deleted(rows[1..], key)
  }

  /** Deletion keeps exactly the rows with other keys, so none with `key` is left. */
  lemma {:induction false} DeletedMembers(rows: seq<ListingRow>, key: nat)
    ensures forall x :: x in Deleted(rows, key) <==> x in rows && x.key != key
    ensures !HasKey(Deleted(rows, key), key)
  {
    if rows != [] {
      DeletedMembers(rows[1..], key);
      assert rows == [rows[0]] + rows[1..];
    }
    var r := Deleted(rows, key);
    forall i | 0 <= i < |r| ensures r[i].key != key {
      assert r[i] in r;
    }
  }

  /** Removing a row that is no longer attached changes nothing. */
  lemma {:induction false} DeletedAbsent(rows: seq<ListingRow>, key: nat)
    requires !HasKey(rows, key)
    ensures Deleted(rows, key) == rows
  {
    if rows != [] {
      assert !HasKey(rows[1..], key) by {
        forall i | 0 <= i < |rows[1..]| ensures rows[1..][i].key != key {
          assert rows[1..][i] == rows[i + 1];
        }
      }
      DeletedAbsent(rows[1..], key);
      assert [rows[0]] + rows[1..] == rows;
    }
  }

  /** Deleting twice is deleting once. */
  lemma DeletedTwice(rows: seq<ListingRow>, key: nat)
    ensures Deleted(Deleted(rows, key), key) == Deleted(rows, key)
  {
    DeletedMembers(rows, key);
    DeletedAbsent(Deleted(rows, key), key);
  }

  /** With unique identities, deletion takes out exactly the one row and keeps the others in order. */
  lemma {:induction false} DeletedAt(rows: seq<ListingRow>, k: nat)
    requires k < |rows| && UniqueKeys(rows)
    ensures Deleted(rows, rows[k].key) == rows[..k] + rows[k + 1..]
  {
    var key := rows[k].key;
    if k == 0 {
      assert !HasKey(rows[1..], key) by {
        forall i | 0 <= i < |rows[1..]| ensures rows[1..][i].key != key {
          assert rows[1..][i] == rows[i + 1];
        }
      }
      DeletedAbsent(rows[1..], key);
    } else {
      assert rows[1..][k - 1] == rows[k];
      assert UniqueKeys(rows[1..]) by {
        forall i, j | 0 <= i < j < |rows[1..]| ensures rows[1..][i].key != rows[1..][j].key {
          assert rows[1..][i] == rows[i + 1] && rows[1..][j] == rows[j + 1];
        }
      }
      DeletedAt(rows[1..], k - 1);
      assert rows[1..][..k - 1] == rows[1..k];
      assert rows[1..][k..] == rows[k + 1..];
      assert [rows[0]] + rows[1..k] == rows[..k];
    }
  }

  /** Deletion keeps distinct identities distinct. */
  lemma {:induction false} DeletedUnique(rows: seq<ListingRow>, key: nat)
    requires UniqueKeys(rows)
    ensures UniqueKeys(Deleted(rows, key))
  {
    if rows != [] {
      var tail := rows[1..];
      TailKeys(rows);
      DeletedUnique(tail, key);
      DeletedMembers(tail, key);
      var rest := Deleted(tail, key);
      if rows[0].key != key {
        forall x | x in rest ensures x.key != rows[0].key {
          var k :| 0 <= k < |tail| && tail[k] == x;
        }
        ConsUnique(rows[0], rest);
      }
    }
  }

  /** The rows after the first keep unique keys, none of them the first row's. */
  lemma TailKeys(rows: seq<ListingRow>)
    requires rows != [] && UniqueKeys(rows)
    ensures UniqueKeys(rows[1..]) && !HasKey(rows[1..], rows[0].key)
  {
    forall i, j | 0 <= i < j < |rows[1..]| ensures rows[1..][i].key != rows[1..][j].key {
      assert rows[1..][i] == rows[i + 1] && rows[1..][j] == rows[j + 1];
    }
    forall i | 0 <= i < |rows[1..]| ensures rows[1..][i].key != rows[0].key {
      assert rows[1..][i] == rows[i + 1];
    }
  }

  /** A row whose key no other row has keeps the keys unique when put in front. */
  lemma ConsUnique(h: ListingRow, rest: seq<ListingRow>)
    requires UniqueKeys(rest) && forall x :: x in rest ==> x.key != h.key
    ensures UniqueKeys([h] + rest)
  {
    var r := [h] + rest;
    forall a, b | 0 <= a < b < |r| ensures r[a].key != r[b].key {
      if a == 0 {
        assert r[b] == rest[b - 1] && rest[b - 1] in rest;
      } else {
        assert r[a] == rest[a - 1] && r[b] == rest[b - 1];
      }
    }
  }

  /** Deleting the copy just made gives back the table as it was before the copy. */
  lemma DeleteUndoesCopy(rows: seq<ListingRow>, r: ListingRow, itemName: string, key: nat)
    requires !HasKey(rows, key)
    ensures Deleted(rows + [Copy(r, itemName, key)], key) == rows
  {
    var c := Copy(r, itemName, key);
    DeletedAppend(rows, c, key);
    DeletedAbsent(rows, key);
  }

  lemma {:induction false} DeletedAppend(rows: seq<ListingRow>, x: ListingRow, key: nat)
    ensures Deleted(rows + [x], key) == Deleted(rows, key) + (if x.key == key then [] else [x])
  {
    if rows == [] {
      assert rows + [x] == [x];
    } else {
      assert (rows + [x])[1..] == rows[1..] + [x];
      DeletedAppend(rows[1..], x, key);
    }
  }

  /**
   * What the Confirm listeners run so far have done: the table, the next
   * element identity, the messages posted and whether one of them reached
   * its `modal.close()`.
   */
  datatype Effect = Effect(rows: seq<ListingRow>, nextKey: nat, notices: seq<Notice>, closed: bool)

  /**
   * One Confirm listener: `onConfirm()` if it is a function, then
   * `modal.close()`. Duplicating a row that a delete has already detached
   * posts its message and then fails on the missing `tbody`, so that
   * listener neither appends a row nor closes the dialog.
   */
  function RunHandler(e: Effect, h: Option<Callback>): Effect {
    match h
    case None => e.(closed := true)
    case Some(OnDuplicate(key, name)) =>
      var posted := e.notices + [Notice("Listing duplicated: " + name, "success")];
      (match RowIndex(e.rows, key)
       case None => e.(notices := posted)
       case Some(i) => Effect(e.rows + [Copy(e.rows[i], name, e.nextKey)], e.nextKey + 1, posted, true))
    case Some(OnDelete(key, name)) =>
      Effect(Deleted(e.rows, key), e.nextKey, e.notices + [Notice("Listing deleted: " + name, "success")], true)
  }

  /** The listeners of the Confirm button, run in the order they were added. */
  function RunHandlers(e: Effect, hs: seq<Option<Callback>>): Effect {
    if hs == [] then e else RunHandler(RunHandlers(e, hs[..|hs| - 1]), hs[|hs| - 1])
  }

  /**
   * A confirmed copy of an attached row appends exactly one row at the end:
   * the source row renamed `name (Copy)`; every earlier row stays as it was,
   * one message is posted and the dialog closes.
   */
  lemma ConfirmedDuplicate(rows: seq<ListingRow>, nextKey: nat, k: nat, name: string)
    requires k < |rows| && UniqueKeys(rows)
    ensures var e := RunHandlers(Effect(rows, nextKey, [], false), [Some(OnDuplicate(rows[k].key, name))]);
      && |e.rows| == |rows| + 1 && e.rows[..|rows|] == rows
      && e.rows[|rows|] == Copy(rows[k], name, nextKey)
      && e.notices == [Notice("Listing duplicated: " + name, "success")] && e.closed
  {
    var hs := [Some(OnDuplicate(rows[k].key, name))];
    assert hs[..0] == [];
    var i := RowIndex(rows, rows[k].key).value;
    assert i == k;
  }

  /** A confirmed delete removes exactly that row, keeps the others in order, posts one message and closes. */
  lemma ConfirmedDelete(rows: seq<ListingRow>, nextKey: nat, k: nat, name: string)
    requires k < |rows| && UniqueKeys(rows)
    ensures var e := RunHandlers(Effect(rows, nextKey, [], false), [Some(OnDelete(rows[k].key, name))]);
      && e.rows == rows[..k] + rows[k + 1..] && |e.rows| == |rows| - 1
      && e.notices == [Notice("Listing deleted: " + name, "success")] && e.closed
  {
    var hs := [Some(OnDelete(rows[k].key, name))];
    assert hs[..0] == [];
    DeletedAt(rows, k);
  }

  class ListingManager {
    /** The rows of the listings table, in document order. */
    var rows: seq<ListingRow>
    /** Identity for the next element created. */
    var nextKey: nat
    const notes: NotificationCenter
    const modal: ModalSurface

    ghost predicate Valid()
      reads this, notes, modal
    {
      && notes.Valid() && modal.Valid()
      && UniqueKeys(rows)
      && (forall i :: 0 <= i < |rows| ==> rows[i].key < nextKey)
    }

    /** `new ListingManager()`: wires the icons of every row present. */
    constructor (table: seq<ListingRow>, center: NotificationCenter, surface: ModalSurface)
      requires UniqueKeys(table) && center.Valid() && surface.Valid()
      ensures Valid() && notes == center && modal == surface
      ensures |rows| == |table|
      ensures forall i :: 0 <= i < |rows| ==> rows[i] == table[i].(wired := true)
    {
      notes, modal := center, surface;
      rows := seq(|table|, i requires 0 <= i < |table| => table[i].(wired := true));
      nextKey := Bound(table);
    }

    /** `editListing`: posts "Editing: …" (info) and shows the edit form for the row's item. */
    method EditListing(k: nat)
      requires Valid() && k < |rows|
      modifies notes, modal
      ensures Valid()
      ensures Posted(notes, [Notice("Editing: " + rows[k].name, "info")])
      ensures modal.open && modal.title == "Edit Listing" && modal.content == EditListingForm(rows[k].name)
      ensures modal.confirmHandlers == [] && !modal.cancelWired && modal.pendingWirings == old(modal.pendingWirings)
    {
      var n0 := notes.nextId;
      var n := notes.Show("Editing: " + rows[k].name, Some("info"));
      assert IdRange(n0, 1) == {n0};
      modal.ShowModal("Edit Listing", EditListingForm(rows[k].name));
    }

    /** `viewListingStats`: shows the row's item, views and watchers; posts nothing. */
    method ViewListingStats(k: nat)
      requires Valid() && k < |rows|
      modifies modal
      ensures Valid()
      ensures modal.open && modal.title == "Listing Statistics"
      ensures modal.content == ListingStatistics(rows[k].name, rows[k].views, rows[k].watchers)
      ensures modal.confirmHandlers == [] && !modal.cancelWired && modal.pendingWirings == old(modal.pendingWirings)
    {
      modal.ShowModal("Listing Statistics", ListingStatistics(rows[k].name, rows[k].views, rows[k].watchers));
    }

    /** `duplicateListing`: asks for confirmation; the table changes only when Confirm runs the closure. */
    method DuplicateListing(k: nat)
      requires Valid() && k < |rows|
      modifies modal
      ensures Valid()
      ensures modal.open && modal.title == "Duplicate Listing"
      ensures modal.content == ConfirmPrompt("Create a copy of \"" + rows[k].name + "\"?")
      ensures modal.confirmHandlers == [] && !modal.cancelWired
      ensures modal.pendingWirings == old(modal.pendingWirings) + [Some(OnDuplicate(rows[k].key, rows[k].name))]
    {
      modal.ShowConfirmDialog("Duplicate Listing", "Create a copy of \"" + rows[k].name + "\"?",
                              Some(OnDuplicate(rows[k].key, rows[k].name)));
    }

    /** `deleteListing`: asks for confirmation; the table changes only when Confirm runs the closure. */
    method DeleteListing(k: nat)
      requires Valid() && k < |rows|
      modifies modal
      ensures Valid()
      ensures modal.open && modal.title == "Delete Listing"
      ensures modal.content == ConfirmPrompt("Are you sure you want to delete \"" + rows[k].name + "\"?")
      ensures modal.confirmHandlers == [] && !modal.cancelWired
      ensures modal.pendingWirings == old(modal.pendingWirings) + [Some(OnDelete(rows[k].key, rows[k].name))]
    {
      modal.ShowConfirmDialog("Delete Listing", "Are you sure you want to delete \"" + rows[k].name + "\"?",
                              Some(OnDelete(rows[k].key, rows[k].name)));
    }

    /** A click on one of row `k`'s icons: only rows with listeners react. No icon click changes the table. */
    method IconClicked(k: nat, icon: Icon)
      requires Valid() && k < |rows|
      modifies notes, modal
      ensures Valid()
      ensures !rows[k].wired ==> unchanged(notes) && unchanged(modal)
      ensures rows[k].wired ==> match icon
        case EditIcon =>
          Posted(notes, [Notice("Editing: " + rows[k].name, "info")])
          && modal.open && modal.title == "Edit Listing" && modal.content == EditListingForm(rows[k].name)
          && modal.confirmHandlers == [] && !modal.cancelWired && modal.pendingWirings == old(modal.pendingWirings)
        case StatsIcon =>
          unchanged(notes)
          && modal.open && modal.title == "Listing Statistics"
          && modal.content == ListingStatistics(rows[k].name, rows[k].views, rows[k].watchers)
          && modal.confirmHandlers == [] && !modal.cancelWired && modal.pendingWirings == old(modal.pendingWirings)
        case CopyIcon =>
          unchanged(notes)
          && modal.open && modal.title == "Duplicate Listing"
          && modal.content == ConfirmPrompt("Create a copy of \"" + rows[k].name + "\"?")
          && modal.confirmHandlers == [] && !modal.cancelWired
          && modal.pendingWirings == old(modal.pendingWirings) + [Some(OnDuplicate(rows[k].key, rows[k].name))]
        case TrashIcon =>
          unchanged(notes)
          && modal.open && modal.title == "Delete Listing"
          && modal.content == ConfirmPrompt("Are you sure you want to delete \"" + rows[k].name + "\"?")
          && modal.confirmHandlers == [] && !modal.cancelWired
          && modal.pendingWirings == old(modal.pendingWirings) + [Some(OnDelete(rows[k].key, rows[k].name))]
    {
      if rows[k].wired {
        match icon
        case EditIcon => EditListing(k);
        case StatsIcon => ViewListingStats(k);
        case CopyIcon => DuplicateListing(k);
        case TrashIcon => DeleteListing(k);
      }
    }

    /**
     * A click on the dialog's Confirm button: every listener on it runs, in
     * order, with the effect `RunHandlers` describes. The dialog itself is
     * not rewritten, so only its displayed state can change. Before the
     * listeners are wired, a click changes neither the rows, the
     * notifications nor the dialog's visibility.
     */
    method ConfirmClicked()
      requires Valid()
      modifies this, notes, modal
      ensures Valid()
      ensures var e := RunHandlers(Effect(old(rows), old(nextKey), [], false), old(modal.ClickableConfirmHandlers()));
        && rows == e.rows && nextKey == e.nextKey
        && Posted(notes, e.notices)
        && modal.open == (old(modal.open) && !e.closed)
      ensures modal.overlays == old(modal.overlays) && modal.title == old(modal.title) && modal.content == old(modal.content)
      ensures modal.confirmHandlers == old(modal.confirmHandlers) && modal.cancelWired == old(modal.cancelWired)
      ensures modal.pendingWirings == old(modal.pendingWirings)
      ensures old(modal.ClickableConfirmHandlers()) == [] ==>
        && rows == old(rows) && nextKey == old(nextKey) && modal.open == old(modal.open)
        && notes.entries == old(notes.entries) && notes.nextId == old(notes.nextId) && notes.expiring == old(notes.expiring)
    {
      var hs := modal.ClickableConfirmHandlers();
      ghost var start := Effect(rows, nextKey, [], false);
      ghost var n0, e0, x0, l0, c0 := notes.nextId, notes.entries, notes.expiring, notes.leaving, notes.containers;
      var i := 0;
      assert IdRange(n0, 0) == {};
      while i < |hs|
        invariant 0 <= i <= |hs|
        invariant Valid()
        invariant Progress(RunHandlers(start, hs[..i]), e0, n0, x0, l0, c0, old(modal.open))
        invariant modal.overlays == old(modal.overlays) && modal.title == old(modal.title) && modal.content == old(modal.content)
        invariant modal.confirmHandlers == old(modal.confirmHandlers) && modal.cancelWired == old(modal.cancelWired)
        invariant modal.pendingWirings == old(modal.pendingWirings)
      {
        assert hs[..i + 1][..i] == hs[..i];
        Advance(RunHandlers(start, hs[..i]), hs[i], e0, n0, x0, l0, c0, old(modal.open));
        i := i + 1;
      }
      assert hs[..i] == hs;
      assert Progress(RunHandlers(start, hs), e0, n0, x0, l0, c0, old(modal.open));
    }

    /**
     * The state after the listeners that produced the effect `e` ran, with
     * `e0`, `n0`, `x0`, `l0`, `c0` the notification state and `wasOpen` the
     * modal's visibility before the click.
     */
    ghost predicate Progress(e: Effect, e0: seq<Entry>, n0: nat, x0: set<nat>, l0: set<nat>, c0: nat, wasOpen: bool)
      reads this, notes, modal
    {
      && rows == e.rows && nextKey == e.nextKey
      && modal.open == (wasOpen && !e.closed)
      && notes.entries == e0 + Numbered(n0, e.notices) && notes.nextId == n0 + |e.notices|
      && notes.expiring == x0 + IdRange(n0, |e.notices|) && notes.leaving == l0
      && notes.containers == (if e.notices == [] then c0 else 1)
    }

    /** Runs one more listener `h` after those that produced `before`. */
    method Advance(ghost before: Effect, h: Option<Callback>, ghost e0: seq<Entry>, ghost n0: nat,
                   ghost x0: set<nat>, ghost l0: set<nat>, ghost c0: nat, ghost wasOpen: bool)
      requires Valid() && Progress(before, e0, n0, x0, l0, c0, wasOpen)
      modifies this, notes, modal
      ensures Valid() && Progress(RunHandler(before, h), e0, n0, x0, l0, c0, wasOpen)
      ensures modal.overlays == old(modal.overlays) && modal.title == old(modal.title) && modal.content == old(modal.content)
      ensures modal.confirmHandlers == old(modal.confirmHandlers) && modal.cancelWired == old(modal.cancelWired)
      ensures modal.pendingWirings == old(modal.pendingWirings)
    {
      ghost var step := RunHandler(Effect(rows, nextKey, [], false), h);
      RunHandlerSplit(before, h);
      ghost var mid, midX := notes.entries, notes.expiring;
      RunStep(h);
      PostedTwice(e0, x0, n0, before.notices, step.notices, mid, midX, notes.entries, notes.expiring);
    }

    /** One Confirm listener `h` runs. */
    method RunStep(h: Option<Callback>)
      requires Valid()
      modifies this, notes, modal
      ensures Valid()
      ensures var e := RunHandler(Effect(old(rows), old(nextKey), [], false), h);
        && rows == e.rows && nextKey == e.nextKey
        && Posted(notes, e.notices)
        && modal.open == (old(modal.open) && !e.closed)
      ensures modal.overlays == old(modal.overlays) && modal.title == old(modal.title) && modal.content == old(modal.content)
      ensures modal.confirmHandlers == old(modal.confirmHandlers) && modal.cancelWired == old(modal.cancelWired)
      ensures modal.pendingWirings == old(modal.pendingWirings)
    {
      match h {
        case None =>
          assert IdRange(notes.nextId, 0) == {};
          modal.Close();
        case Some(OnDuplicate(key, name)) =>
          RunDuplicate(key, name);
        case Some(OnDelete(key, name)) =>
          RunDelete(key, name);
      }
    }

    /** The listener `showConfirmDialog` was given by `duplicateListing`, then `modal.close()`. */
    method RunDuplicate(key: nat, name: string)
      requires Valid()
      modifies this, notes, modal
      ensures Valid()
      ensures var e := RunHandler(Effect(old(rows), old(nextKey), [], false), Some(OnDuplicate(key, name)));
        && rows == e.rows && nextKey == e.nextKey
        && Posted(notes, e.notices)
        && modal.open == (old(modal.open) && !e.closed)
      ensures modal.overlays == old(modal.overlays) && modal.title == old(modal.title) && modal.content == old(modal.content)
      ensures modal.confirmHandlers == old(modal.confirmHandlers) && modal.cancelWired == old(modal.cancelWired)
      ensures modal.pendingWirings == old(modal.pendingWirings)
    {
      var n0 := notes.nextId;
      var n := notes.Show("Listing duplicated: " + name, Some("success"));
      assert IdRange(n0, 1) == {n0};
      var j := RowIndex(rows, key);
      if j.Some? {
        rows := rows + [Copy(rows[j.value], name, nextKey)];
        nextKey := nextKey + 1;
        modal.Close();
      }
    }

    /** The listener `showConfirmDialog` was given by `deleteListing`, then `modal.close()`. */
    method RunDelete(key: nat, name: string)
      requires Valid()
      modifies this, notes, modal
      ensures Valid()
      ensures var e := RunHandler(Effect(old(rows), old(nextKey), [], false), Some(OnDelete(key, name)));
        && rows == e.rows && nextKey == e.nextKey
        && Posted(notes, e.notices)
        && modal.open == (old(modal.open) && !e.closed)
      ensures modal.overlays == old(modal.overlays) && modal.title == old(modal.title) && modal.content == old(modal.content)
      ensures modal.confirmHandlers == old(modal.confirmHandlers) && modal.cancelWired == old(modal.cancelWired)
      ensures modal.pendingWirings == old(modal.pendingWirings)
    {
      var n0 := notes.nextId;
      DeletedUnique(rows, key);
      DeletedMembers(rows, key);
      rows := Deleted(rows, key);
      var n := notes.Show("Listing deleted: " + name, Some("success"));
      assert IdRange(n0, 1) == {n0};
      modal.Close();
    }
  }

  lemma RunHandlerSplit(e: Effect, h: Option<Callback>)
    ensures var z := RunHandler(Effect(e.rows, e.nextKey, [], false), h);
      RunHandler(e, h) == Effect(z.rows, z.nextKey, e.notices + z.notices, e.closed || z.closed)
  {
  }

  /** One more than the largest identity in the table. */
  function Bound(rows: seq<ListingRow>): (b: nat)
    ensures forall i :: 0 <= i < |rows| ==> rows[i].key < b
  {
    if rows == [] then 0
    else
      var rest := Bound(rows[1..]);
      assert forall i :: 1 <= i < |rows| ==> rows[i] == rows[1..][i - 1];
      if rows[0].key >= rest then rows[0].key + 1 else rest
  }
}
