/**
 * `ModalSystem` and `showConfirmDialog` of the seller dashboard: one
 * overlay with one dialog in the whole document, whose title and content
 * every `show` overwrites.
 *
 * Markup is replaced by a `Content` value naming the panel and the data it
 * shows. A confirmation dialog wires its Confirm and Cancel buttons only
 * when its 50 ms timer fires (`WireConfirmHandlers`), and each such timer
 * wires whatever `.confirm-btn` the document holds at that moment, which is
 * why the model keeps the pending timers and the listeners of the current
 * Confirm button as two lists.
 */
module Modal {
  import opened Wrappers
  import opened Records

  /** The two `onConfirm` closures the dashboard passes: both act on a listing row, named by its element identity. */
  datatype Callback =
    | OnDuplicate(row: nat, itemName: string)
    | OnDelete(row: nat, itemName: string)

  /** What the dialog body shows. */
  datatype Content =
    | Blank
    | TrackingInfo(orderId: string)
    | OrderDetails(order: Order)
    | EditListingForm(itemName: string)
    | ListingStatistics(itemName: string, views: string, watchers: string)
    | ConfirmPrompt(message: string)

  class ModalSurface {
    /** Number of `#modal-overlay` elements in the document. */
    var overlays: nat
    /** `overlay.style.display == 'flex'`. */
    var open: bool
    var title: string
    var content: Content
    /** The click listeners on the current `.confirm-btn`, in the order they were added (`None`: `onConfirm` was not a function). */
    var confirmHandlers: seq<Option<Callback>>
    /** Whether the current `.cancel-btn` has its listener. */
    var cancelWired: bool
    /** The 50 ms wiring timers not yet fired, in firing order, each with the `onConfirm` it will attach. */
    var pendingWirings: seq<Option<Callback>>

    ghost predicate Valid()
      reads this
    {
      && overlays <= 1
      && (open ==> overlays == 1)
      && (!content.ConfirmPrompt? ==> confirmHandlers == [] && !cancelWired)
    }

    /** `new ModalSystem()`: its constructor runs `createModal`, so the document has its one overlay. */
    constructor ()
      ensures Valid() && overlays == 1 && !open && content == Blank
      ensures confirmHandlers == [] && !cancelWired && pendingWirings == []
    {
      overlays, open, title, content := 0, false, "", Blank;
      confirmHandlers, cancelWired, pendingWirings := [], false, [];
      new;
      CreateModal();
    }

    /** `createModal`, run by every `new ModalSystem()`: builds the overlay (and its click listener) only if absent. */
    method CreateModal()
      requires Valid()
      modifies this
      ensures Valid() && overlays == 1
      ensures open == old(open) && title == old(title) && content == old(content)
      ensures confirmHandlers == old(confirmHandlers) && cancelWired == old(cancelWired)
      ensures pendingWirings == old(pendingWirings)
    {
      if overlays == 0 {
        overlays := 1;
      }
    }

    /**
     * `show(title, content)`: overwrites the dialog (its old buttons and their
     * listeners go with the old markup) and displays the overlay.
     */
    method Show(t: string, c: Content)
      requires Valid() && overlays == 1
      modifies this
      ensures Valid() && overlays == 1
      ensures open && title == t && content == c
      ensures confirmHandlers == [] && !cancelWired
      ensures pendingWirings == old(pendingWirings)
    {
      open, title, content := true, t, c;
      confirmHandlers, cancelWired := [], false;
    }

    /** `window.showModal(title, content)`: `new ModalSystem()` then `show`. */
    method ShowModal(t: string, c: Content)
      requires Valid()
      modifies this
      ensures Valid() && overlays == 1
      ensures open && title == t && content == c
      ensures confirmHandlers == [] && !cancelWired
      ensures pendingWirings == old(pendingWirings)
    {
      CreateModal();
      Show(t, c);
    }

    /** `close()`: hides the overlay; closing a closed dialog changes nothing. */
    method Close()
      requires Valid()
      modifies this
      ensures Valid() && !open
      ensures overlays == old(overlays) && title == old(title) && content == old(content)
      ensures confirmHandlers == old(confirmHandlers) && cancelWired == old(cancelWired)
      ensures pendingWirings == old(pendingWirings)
    {
      open := false;
    }

    /** A click on the dialog's close button, which only a displayed dialog offers. */
    method CloseButtonClicked()
      requires Valid()
      modifies this
      ensures Valid() && !open
      ensures overlays == old(overlays) && title == old(title) && content == old(content)
      ensures confirmHandlers == old(confirmHandlers) && cancelWired == old(cancelWired)
      ensures pendingWirings == old(pendingWirings)
    {
      if open {
        Close();
      }
    }

    /** A click on the displayed overlay: it closes only when the target is the overlay itself, not the dialog. */
    method OverlayClicked(onOverlayItself: bool)
      requires Valid()
      modifies this
      ensures Valid()
      ensures open == (old(open) && !onOverlayItself)
      ensures overlays == old(overlays) && title == old(title) && content == old(content)
      ensures confirmHandlers == old(confirmHandlers) && cancelWired == old(cancelWired)
      ensures pendingWirings == old(pendingWirings)
    {
      if open && onOverlayItself {
        Close();
      }
    }

    /**
     * `showConfirmDialog(title, message, onConfirm)`: shows the prompt at once
     * and arms the timer that will wire its buttons.
     */
    method ShowConfirmDialog(t: string, message: string, onConfirm: Option<Callback>)
      requires Valid()
      modifies this
      ensures Valid() && overlays == 1
      ensures open && title == t && content == ConfirmPrompt(message)
      ensures confirmHandlers == [] && !cancelWired
      ensures pendingWirings == old(pendingWirings) + [onConfirm]
    {
      CreateModal();
      Show(t, ConfirmPrompt(message));
      pendingWirings := pendingWirings + [onConfirm];
    }

    /**
     * The oldest wiring timer fires. If the dialog holds Confirm/Cancel buttons
     * (`document.querySelector` finds them), its `onConfirm` is added to the
     * Confirm button and Cancel gets a closing listener; otherwise nothing is wired.
     */
    method WireConfirmHandlers()
      requires Valid()
      modifies this
      ensures Valid()
      ensures pendingWirings == if old(pendingWirings) == [] then [] else old(pendingWirings)[1..]
      ensures confirmHandlers ==
        if old(pendingWirings) != [] && content.ConfirmPrompt?
        then old(confirmHandlers) + [old(pendingWirings)[0]] else old(confirmHandlers)
      ensures cancelWired == (old(cancelWired) || (old(pendingWirings) != [] && content.ConfirmPrompt?))
      ensures overlays == old(overlays) && open == old(open) && title == old(title) && content == old(content)
    {
      if pendingWirings != [] {
        var h := pendingWirings[0];
        pendingWirings := pendingWirings[1..];
        if content.ConfirmPrompt? {
          confirmHandlers := confirmHandlers + [h];
          cancelWired := true;
        }
      }
    }

    /** The listeners a click on Confirm runs now: none unless a confirmation prompt is displayed. */
    function ClickableConfirmHandlers(): (hs: seq<Option<Callback>>)
      reads this
      requires Valid()
      ensures hs != [] ==> open && content.ConfirmPrompt?
      ensures open && content.ConfirmPrompt? ==> hs == confirmHandlers
    {
      if open && content.ConfirmPrompt? then confirmHandlers else []
    }

    /** A click on Cancel: closes the prompt once its buttons are wired, and does nothing before. */
    method CancelClicked()
      requires Valid()
      modifies this
      ensures Valid()
      ensures open == (old(open) && !(content.ConfirmPrompt? && cancelWired))
      ensures overlays == old(overlays) && title == old(title) && content == old(content)
      ensures confirmHandlers == old(confirmHandlers) && cancelWired == old(cancelWired)
      ensures pendingWirings == old(pendingWirings)
    {
      if open && content.ConfirmPrompt? && cancelWired {
        Close();
      }
    }
  }
}
