/**
 * The hamburger button and the mobile menu (`initHamburger` and the link
 * handler of `initMobileDropdowns`). The button's `<i>` icon is kept as its
 * class set, since a click swaps `fa-bars` and `fa-times` by looking at which
 * one is there.
 */
module Hamburger {
  import opened Wrappers
  import opened Site

  const Bars: string := "fa-bars"
  const Times: string := "fa-times"
  /** `window.innerWidth` above which the page is laid out for the desktop. */
  const DesktopWidth: int := 768

  /** The icon's classes after a hamburger click: a `fa-bars` icon turns into `fa-times`, any other into `fa-bars`. */
  function IconToggled(icon: set<string>): (r: set<string>)
    ensures (Bars in r) != (Times in r)
    ensures Times in r <==> Bars in icon
    ensures r - {Bars, Times} == icon - {Bars, Times}
  {
    if Bars in icon then icon - {Bars} + {Times} else icon - {Times} + {Bars}
  }

  /** The icon's classes after it is reset to the closed state. */
  function IconReset(icon: set<string>): (r: set<string>)
    ensures Bars in r && Times !in r
    ensures r - {Bars, Times} == icon - {Bars, Times}
  {
    icon - {Times} + {Bars}
  }

  /** Two clicks give back the icon, when it showed exactly one of the two glyphs. */
  lemma IconToggleTwice(icon: set<string>)
    requires (Bars in icon) != (Times in icon)
    ensures IconToggled(IconToggled(icon)) == icon
  {
    var r := IconToggled(IconToggled(icon));
    forall c ensures c in r <==> c in icon {
      if c != Bars && c != Times {
        assert c in r <==> c in IconToggled(icon);
      }
    }
  }

  /** `classList.toggle` on an element that may be missing. */
  function Flipped(flag: Option<bool>): (r: Option<bool>)
    ensures r.Some? <==> flag.Some?
    ensures r.Some? ==> r.value == !flag.value
  {
    if flag.Some? then Some(!flag.value) else None
  }

  /** `classList.remove` on an element that may be missing. */
  function Off(flag: Option<bool>): (r: Option<bool>)
    ensures r.Some? <==> flag.Some?
    ensures r != Some(true)
  {
    if flag.Some? then Some(false) else None
  }

  /** The icon after a reset, when there is one. */
  function IconOff(icon: Option<set<string>>): (r: Option<set<string>>)
    ensures r.Some? <==> icon.Some?
    ensures r.Some? ==> r.value == IconReset(icon.value)
  {
    if icon.Some? then Some(IconReset(icon.value)) else None
  }

  class MobileMenu {
    const doc: Document
    /** `#hamburgerBtn` exists. */
    const hasButton: bool
    /** The `active` class of `#mobileMenu`; `None` when there is no such element. */
    var menuActive: Option<bool>
    /** The `open` class of `#navMenu` (the older markup); `None` when there is no such element. */
    var navOpen: Option<bool>
    /** The classes of the hamburger's `<i>`; `None` when the button or its icon is missing. */
    var icon: Option<set<string>>

    ghost predicate Valid()
      reads this
    {
      !hasButton ==> icon.None?
    }

    /** The page scrolls exactly when the mobile menu is not open. */
    ghost predicate ScrollLocked()
      reads this, doc
    {
      doc.overflow == "hidden" <==> menuActive == Some(true)
    }

    constructor (d: Document, button: bool, menu: Option<bool>, nav: Option<bool>, glyph: Option<set<string>>)
      requires button || glyph.None?
      ensures doc == d && hasButton == button && menuActive == menu && navOpen == nav && icon == glyph
      ensures Valid()
    {
      doc, hasButton, menuActive, navOpen, icon := d, button, menu, nav, glyph;
    }

    /**
     * A click on the hamburger button: toggles both menus and the icon, and
     * locks the page's scrolling iff the mobile menu is now open. The click
     * stops there, so the outside-click handler does not see it.
     */
    method Click()
      requires Valid() && hasButton
      modifies this, doc
      ensures Valid()
      ensures menuActive == Flipped(old(menuActive)) && navOpen == Flipped(old(navOpen))
      ensures icon.Some? <==> old(icon).Some?
      ensures icon.Some? ==> icon.value == IconToggled(old(icon).value)
      ensures doc.overflow == (if menuActive == Some(true) then "hidden" else "")
      ensures ScrollLocked()
      ensures doc.bodyClasses == old(doc.bodyClasses) && doc.storage == old(doc.storage) && doc.events == old(doc.events)
    {
      menuActive := Flipped(menuActive);
      navOpen := Flipped(navOpen);
      if icon.Some? {
        icon := Some(IconToggled(icon.value));
      }
      doc.overflow := if menuActive == Some(true) then "hidden" else "";
    }

    /** Closes both menus, unlocks scrolling and resets the icon. */
    method CloseAll()
      requires Valid()
      modifies this, doc
      ensures Valid()
      ensures menuActive == Off(old(menuActive)) && navOpen == Off(old(navOpen)) && icon == IconOff(old(icon))
      ensures doc.overflow == "" && ScrollLocked()
      ensures doc.bodyClasses == old(doc.bodyClasses) && doc.storage == old(doc.storage) && doc.events == old(doc.events)
    {
      menuActive, navOpen, icon := Off(menuActive), Off(navOpen), IconOff(icon);
      doc.overflow := "";
    }

    /**
     * A click anywhere that reaches the document while the mobile menu is
     * open: a click outside both the menu and the button closes everything.
     * Without a hamburger button the check `hamburgerBtn.contains` throws on
     * an outside click, and nothing closes.
     */
    method OutsideClick(inMenu: bool, inButton: bool)
      requires Valid()
      modifies this, doc
      ensures Valid()
      ensures var closes := old(menuActive) == Some(true) && !inMenu && hasButton && !inButton;
        if closes then
          menuActive == Some(false) && navOpen == Off(old(navOpen)) && icon == IconOff(old(icon)) && doc.overflow == ""
        else
          menuActive == old(menuActive) && navOpen == old(navOpen) && icon == old(icon) && doc.overflow == old(doc.overflow)
      ensures old(ScrollLocked()) ==> ScrollLocked()
      ensures doc.bodyClasses == old(doc.bodyClasses) && doc.storage == old(doc.storage) && doc.events == old(doc.events)
    {
      if menuActive == Some(true) && !inMenu && hasButton && !inButton {
        CloseAll();
      }
    }

    /** `resize`: a window wider than 768 pixels always ends with both menus closed and the bars icon. */
    method Resize(width: int)
      requires Valid()
      modifies this, doc
      ensures Valid()
      ensures width > DesktopWidth ==>
        menuActive == Off(old(menuActive)) && navOpen == Off(old(navOpen)) && icon == IconOff(old(icon)) && doc.overflow == ""
      ensures width <= DesktopWidth ==>
        menuActive == old(menuActive) && navOpen == old(navOpen) && icon == old(icon) && doc.overflow == old(doc.overflow)
      ensures old(ScrollLocked()) ==> ScrollLocked()
      ensures doc.bodyClasses == old(doc.bodyClasses) && doc.storage == old(doc.storage) && doc.events == old(doc.events)
    {
      if width > DesktopWidth {
        CloseAll();
      }
    }

    /**
     * A click on a link inside a mobile dropdown: closes the mobile menu and
     * unlocks scrolling when the menu exists, and resets the icon. `#navMenu`
     * keeps its `open` class.
     */
    method MenuLinkClicked()
      requires Valid()
      modifies this, doc
      ensures Valid()
      ensures menuActive == Off(old(menuActive)) && navOpen == old(navOpen) && icon == IconOff(old(icon))
      ensures doc.overflow == if old(menuActive).Some? then "" else old(doc.overflow)
      ensures old(ScrollLocked()) ==> ScrollLocked()
      ensures doc.bodyClasses == old(doc.bodyClasses) && doc.storage == old(doc.storage) && doc.events == old(doc.events)
    {
      if menuActive.Some? {
        menuActive := Some(false);
        doc.overflow := "";
      }
      icon := IconOff(icon);
    }

    /** `RetroMarket.closeMobileMenu`: like a link click, except that scrolling is unlocked in every case. */
    method CloseMobileMenu()
      requires Valid()
      modifies this, doc
      ensures Valid()
      ensures menuActive == Off(old(menuActive)) && navOpen == old(navOpen) && icon == IconOff(old(icon))
      ensures doc.overflow == "" && ScrollLocked()
      ensures doc.bodyClasses == old(doc.bodyClasses) && doc.storage == old(doc.storage) && doc.events == old(doc.events)
    {
      menuActive := Off(menuActive);
      icon := IconOff(icon);
      doc.overflow := "";
    }
  }
}

/**
 * The `.mobile-dropdown-toggle` buttons of the mobile menu: a click flips
 * the clicked one and closes every other open one.
 */
module MobileDropdowns {
  import opened Wrappers

  /**
   * One toggle: its own `active` class, the `active` class of the
   * `.mobile-dropdown-menu` next to it (`None` when there is none), whether
   * it has an `<i>` icon, and whether that icon is turned upside down.
   */
  datatype Toggle = Toggle(active: bool, menu: Option<bool>, hasIcon: bool, rotated: bool)

  /** The clicked toggle: it flips, its menu flips, and its icon follows the menu. */
  function Flip(t: Toggle): (r: Toggle)
    ensures r.active == !t.active && r.hasIcon == t.hasIcon
    ensures r.menu.Some? <==> t.menu.Some?
    ensures t.menu.Some? ==> r.menu.value == !t.menu.value && r.rotated == (if t.hasIcon then r.menu.value else t.rotated)
    ensures t.menu.None? ==> r.rotated == t.rotated
  {
    var menu := if t.menu.Some? then Some(!t.menu.value) else None;
    t.(active := !t.active, menu := menu, rotated := if menu.Some? && t.hasIcon then menu.value else t.rotated)
  }

  /** Another toggle: an active one closes, with its menu and icon; an inactive one is left alone. */
  function Shut(t: Toggle): (r: Toggle)
    ensures !r.active && r.hasIcon == t.hasIcon && (r.menu.Some? <==> t.menu.Some?)
    ensures t.active && t.menu.Some? ==> r.menu == Some(false) && r.rotated == (t.rotated && !t.hasIcon)
    ensures !t.active ==> r == t
  {
    if !t.active then t
    else if t.menu.None? then t.(active := false)
    else t.(active := false, menu := Some(false), rotated := if t.hasIcon then false else t.rotated)
  }

  /** The toggles after a click on toggle `k`. */
  function Clicked(ts: seq<Toggle>, k: nat): (r: seq<Toggle>)
    requires k < |ts|
    ensures |r| == |ts| && r[k] == Flip(ts[k])
    ensures forall j :: 0 <= j < |ts| && j != k ==> r[j] == Shut(ts[j])
  {
    seq(|ts|, j requires 0 <= j < |ts| => if j == k then Flip(ts[k]) else Shut(ts[j]))
  }

  /** At most one toggle is active. */
  ghost predicate AtMostOneActive(ts: seq<Toggle>) {
    forall i, j :: 0 <= i < |ts| && 0 <= j < |ts| && ts[i].active && ts[j].active ==> i == j
  }

  /** After any click only the clicked toggle can be active, and it is active iff it was not. */
  lemma ClickedExclusive(ts: seq<Toggle>, k: nat)
    requires k < |ts|
    ensures AtMostOneActive(Clicked(ts, k))
    ensures forall j :: 0 <= j < |ts| && Clicked(ts, k)[j].active ==> j == k
    ensures Clicked(ts, k)[k].active <==> !ts[k].active
  {
  }

  /** Clicking the same toggle twice gives it back its state and leaves every other toggle closed. */
  lemma ClickTwice(ts: seq<Toggle>, k: nat)
    requires k < |ts|
    ensures Clicked(Clicked(ts, k), k)[k].active == ts[k].active
    ensures forall j :: 0 <= j < |ts| && j != k ==> !Clicked(Clicked(ts, k), k)[j].active
  {
  }

  class MobileDropdownList {
    /** The toggles in document order. */
    const toggles: array<Toggle>

    constructor (initial: seq<Toggle>)
      ensures fresh(toggles) && toggles[..] == initial
    {
      toggles := new Toggle[|initial|](i requires 0 <= i < |initial| => initial[i]);
    }

    /** A click on toggle `k`: flips it, then walks every other toggle and closes the open ones. */
    method Click(k: nat)
      requires k < toggles.Length
      modifies toggles
      ensures toggles[..] == Clicked(old(toggles[..]), k)
    {
      toggles[k] := Flip(toggles[k]);
      var i := 0;
      while i < toggles.Length
        invariant 0 <= i <= toggles.Length
        invariant toggles[k] == Flip(old(toggles[k]))
        invariant forall j :: 0 <= j < i && j != k ==> toggles[j] == Shut(old(toggles[j]))
        invariant forall j :: i <= j < toggles.Length && j != k ==> toggles[j] == old(toggles[j])
      {
        if i != k && toggles[i].active {
          toggles[i] := Shut(toggles[i]);
        }
        i := i + 1;
      }
    }
  }
}

/**
 * The `.nav-desktop .dropdown` menus: shown on hover and hidden 200 ms after
 * the mouse leaves, and toggled by a click on their `.nav-link` (touch).
 * The inline styles always follow the `show` class, so only the class is
 * kept.
 */
module DesktopDropdowns {
  import opened Wrappers

  /**
   * One dropdown: the `show` class of its `.dropdown-menu` (`None` when it
   * has none) and whether the hide timer held in its `timeout` is pending.
   */
  datatype Dropdown = Dropdown(shown: Option<bool>, hidePending: bool)

  /** `shown` is just the class: a dropdown without a menu is never shown. */
  predicate Shown(d: Dropdown) {
    d.shown == Some(true)
  }

  /** A menu with its `show` class removed. */
  function Hidden(d: Dropdown): (r: Dropdown)
    ensures !Shown(r) && (r.shown.Some? <==> d.shown.Some?) && r.hidePending == d.hidePending
  {
    if d.shown.Some? then d.(shown := Some(false)) else d
  }

  /** `mouseenter`: cancels the pending hide and shows the menu. */
  function Entered(ds: seq<Dropdown>, k: nat): (r: seq<Dropdown>)
    requires k < |ds|
    ensures |r| == |ds| && !r[k].hidePending && (Shown(r[k]) <==> ds[k].shown.Some?)
    ensures forall j :: 0 <= j < |ds| && j != k ==> r[j] == ds[j]
  {
    ds[k := Dropdown(if ds[k].shown.Some? then Some(true) else None, false)]
  }

  /** `mouseleave`: starts the 200 ms hide timer. */
  function Left(ds: seq<Dropdown>, k: nat): (r: seq<Dropdown>)
    requires k < |ds|
    ensures |r| == |ds| && r[k].hidePending && r[k].shown == ds[k].shown
    ensures forall j :: 0 <= j < |ds| && j != k ==> r[j] == ds[j]
  {
    ds[k := ds[k].(hidePending := true)]
  }

  /** The hide timer of dropdown `k` fires. */
  function TimerFired(ds: seq<Dropdown>, k: nat): (r: seq<Dropdown>)
    requires k < |ds| && ds[k].hidePending
    ensures |r| == |ds| && !Shown(r[k]) && !r[k].hidePending && (r[k].shown.Some? <==> ds[k].shown.Some?)
    ensures forall j :: 0 <= j < |ds| && j != k ==> r[j] == ds[j]
  {
    ds[k := Hidden(ds[k]).(hidePending := false)]
  }

  /** Every menu hidden; the timers are untouched. */
  function AllHidden(ds: seq<Dropdown>): (r: seq<Dropdown>)
    ensures |r| == |ds| && forall j :: 0 <= j < |ds| ==> r[j] == Hidden(ds[j])
  {
    seq(|ds|, j requires 0 <= j < |ds| => Hidden(ds[j]))
  }

  /**
   * The dropdowns after a click inside dropdown `k`: on its `.nav-link`
   * (and when it has a menu) every menu is hidden and menu `k` is then shown
   * iff it was hidden before; any other click inside changes nothing.
   */
  function Clicked(ds: seq<Dropdown>, k: nat, onNavLink: bool): (r: seq<Dropdown>)
    requires k < |ds|
    ensures |r| == |ds|
    ensures onNavLink && ds[k].shown.Some? ==>
      (Shown(r[k]) <==> !Shown(ds[k])) && forall j :: 0 <= j < |ds| && j != k ==> r[j] == Hidden(ds[j])
    ensures !(onNavLink && ds[k].shown.Some?) ==> r == ds
  {
    if onNavLink && ds[k].shown.Some? then
      var closed := AllHidden(ds);
      if Shown(ds[k]) then closed else closed[k := closed[k].(shown := Some(true))]
    else ds
  }

  /** At most one menu is shown. */
  ghost predicate AtMostOneShown(ds: seq<Dropdown>) {
    forall i, j :: 0 <= i < |ds| && 0 <= j < |ds| && Shown(ds[i]) && Shown(ds[j]) ==> i == j
  }

  /** A click on a dropdown's link leaves at most one menu shown, whatever was shown before. */
  lemma ClickedAtMostOne(ds: seq<Dropdown>, k: nat)
    requires k < |ds| && ds[k].shown.Some?
    ensures AtMostOneShown(Clicked(ds, k, true))
    ensures forall j :: 0 <= j < |ds| && Shown(Clicked(ds, k, true)[j]) ==> j == k
  {
  }

  /**
   * Hovering does not keep the menus exclusive: entering one dropdown
   * while the hide timer of the one just left is pending shows both.
   */
  lemma HoverShowsTwo(ds: seq<Dropdown>, a: nat, b: nat)
    requires a < |ds| && b < |ds| && a != b && ds[a].shown.Some? && ds[b].shown.Some?
    ensures var r := Entered(Left(Entered(ds, a), a), b);
      Shown(r[a]) && Shown(r[b]) && !AtMostOneShown(r)
  {
    var r := Entered(Left(Entered(ds, a), a), b);
    assert Shown(r[a]) && Shown(r[b]);
  }

  class DropdownList {
    /** The dropdowns in document order. */
    const dropdowns: array<Dropdown>

    constructor (initial: seq<Dropdown>)
      ensures fresh(dropdowns) && dropdowns[..] == initial
    {
      dropdowns := new Dropdown[|initial|](i requires 0 <= i < |initial| => initial[i]);
    }

    method MouseEnter(k: nat)
      requires k < dropdowns.Length
      modifies dropdowns
      ensures dropdowns[..] == Entered(old(dropdowns[..]), k)
    {
      dropdowns[k] := Dropdown(if dropdowns[k].shown.Some? then Some(true) else None, false);
    }

    method MouseLeave(k: nat)
      requires k < dropdowns.Length
      modifies dropdowns
      ensures dropdowns[..] == Left(old(dropdowns[..]), k)
    {
      dropdowns[k] := dropdowns[k].(hidePending := true);
    }

    /** The 200 ms timer started by the last `mouseleave` of dropdown `k` runs. */
    method HideTimerFires(k: nat)
      requires k < dropdowns.Length && dropdowns[k].hidePending
      modifies dropdowns
      ensures dropdowns[..] == TimerFired(old(dropdowns[..]), k)
    {
      dropdowns[k] := Hidden(dropdowns[k]).(hidePending := false);
    }

    /** Hides every menu, one by one. */
    method HideAll()
      modifies dropdowns
      ensures dropdowns[..] == AllHidden(old(dropdowns[..]))
    {
      var i := 0;
      while i < dropdowns.Length
        invariant 0 <= i <= dropdowns.Length
        invariant forall j :: 0 <= j < i ==> dropdowns[j] == Hidden(old(dropdowns[j]))
        invariant forall j :: i <= j < dropdowns.Length ==> dropdowns[j] == old(dropdowns[j])
      {
        dropdowns[i] := Hidden(dropdowns[i]);
        i := i + 1;
      }
    }

    /** A click inside dropdown `k`; `onNavLink` says whether it landed on its `.nav-link`. */
    method Click(k: nat, onNavLink: bool)
      requires k < dropdowns.Length
      modifies dropdowns
      ensures dropdowns[..] == Clicked(old(dropdowns[..]), k, onNavLink)
    {
      if onNavLink && dropdowns[k].shown.Some? {
        var wasShown := Shown(dropdowns[k]);
        HideAll();
        if !wasShown {
          dropdowns[k] := dropdowns[k].(shown := Some(true));
        }
      }
    }

    /** A click on the document outside every `.dropdown` hides every menu. */
    method OutsideClick(inDropdown: bool)
      modifies dropdowns
      ensures dropdowns[..] == if inDropdown then old(dropdowns[..]) else AllHidden(old(dropdowns[..]))
    {
      if !inDropdown {
        HideAll();
      }
    }
  }
}
