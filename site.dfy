/**
 * The page-wide state every handler of `main.js` works on: the classes of
 * `document.body`, its `overflow` style, the `localStorage` entries and the
 * custom events dispatched on `window`; then the theme button
 * (`initThemeToggle`) and the RTL button (`initRTLToggle`).
 *
 * The script's `init` calls `initScanlines`, which no file defines, so the
 * start-up throws right after `initBackToTop`: the hamburger, dropdown,
 * theme, RTL and active-link handlers are installed, while keyboard
 * navigation, touch handling and scroll animations never are. A saved
 * theme holding ASCII whitespace makes it throw earlier, inside
 * `initThemeToggle` (`ThemeInitThrows`): then neither the theme buttons nor
 * anything `init` sets up after them gets its listeners.
 */
module Site {
  import opened Wrappers

  const LightMode: string := "light-mode"
  const DarkMode: string := "dark-mode"
  const Rtl: string := "rtl"
  /** The storage key of the theme. */
  const ThemeKey: string := "retroTheme"
  /** The storage key of the writing direction. */
  const RtlKey: string := "retroRTL"

  /** `themeChanged` and `rtlChanged`, with their `detail`. */
  datatype SiteEvent = ThemeChanged(theme: string) | RtlChanged(rtl: bool)

  /** `localStorage.getItem(key)`: `null` when the key was never set. */
  function Stored(storage: map<string, string>, key: string): (r: Option<string>)
    ensures r.Some? <==> key in storage
    ensures r.Some? ==> r.value == storage[key]
  {
    if key in storage then Some(storage[key]) else None
  }

  /** The body carries exactly one of the two theme classes. */
  predicate OneTheme(classes: set<string>) {
    (LightMode in classes) != (DarkMode in classes)
  }

  /** Two class sets that differ at most in the two theme classes. */
  predicate SameBesidesTheme(a: set<string>, b: set<string>) {
    a - {LightMode, DarkMode} == b - {LightMode, DarkMode}
  }

  /** `RetroMarket.getTheme`: `'dark'` iff the body has `dark-mode`. */
  function ThemeOf(classes: set<string>): (t: string)
    ensures t == "dark" <==> DarkMode in classes
    ensures t == "light" <==> DarkMode !in classes
  {
    if DarkMode in classes then "dark" else "light"
  }

  /**
   * The body's classes after `toggleTheme`: a light body turns dark and any
   * other body turns light, so afterwards exactly one theme class is set,
   * whatever was set before, and no other class changes.
   */
  function ThemeToggled(classes: set<string>): (r: set<string>)
    ensures OneTheme(r)
    ensures DarkMode in r <==> LightMode in classes
    ensures SameBesidesTheme(r, classes)
  {
    if LightMode in classes then classes - {LightMode} + {DarkMode}
    else classes - {DarkMode} + {LightMode}
  }

  /** The value `toggleTheme` stores under `retroTheme`: the class the body now has. */
  function ToggledThemeName(classes: set<string>): (name: string)
    ensures name in ThemeToggled(classes) && name in {LightMode, DarkMode}
  {
    if LightMode in classes then DarkMode else LightMode
  }

  /** On a body with one theme class, two toggles restore every class. */
  lemma ToggleThemeTwice(classes: set<string>)
    requires OneTheme(classes)
    ensures ThemeToggled(ThemeToggled(classes)) == classes
  {
    var r := ThemeToggled(ThemeToggled(classes));
    assert forall c :: c in r <==> c in classes by {
      forall c ensures c in r <==> c in classes {
        if c != LightMode && c != DarkMode {
          assert c in r <==> c in ThemeToggled(classes);
        }
      }
    }
  }

  /** `savedTheme` counts only when it is a non-empty string. */
  predicate Truthy(saved: Option<string>) {
    saved.Some? && saved.value != []
  }

  /** `classList.add(t)` accepts `t` (non-empty here) only when it holds no ASCII whitespace. */
  predicate ClassToken(t: string) {
    forall k :: 0 <= k < |t| ==> t[k] != ' ' && t[k] != '\t' && t[k] != '\n' && t[k] != '\U{C}' && t[k] != '\r'
  }

  /** `body.classList.add(savedTheme)` throws: the saved value is not a single class token. */
  predicate ThemeInitThrows(saved: Option<string>) {
    Truthy(saved) && !ClassToken(saved.value)
  }

  /** The two theme classes are class tokens, so a theme the page stored never makes start-up throw. */
  lemma ThemeNamesAreTokens()
    ensures ClassToken(LightMode) && ClassToken(DarkMode)
  {
    assert LightMode == ['l', 'i', 'g', 'h', 't', '-', 'm', 'o', 'd', 'e'];
    assert DarkMode == ['d', 'a', 'r', 'k', '-', 'm', 'o', 'd', 'e'];
  }

  /**
   * The body's classes after `initThemeToggle` reads `saved`: a saved theme
   * replaces both theme classes, otherwise `light-mode` is added to the
   * markup's classes. When the saved value is no class token, the removal
   * has happened and the addition throws, so no theme class is left.
   */
  function InitialClasses(markup: set<string>, saved: Option<string>): (r: set<string>)
    ensures Truthy(saved) && ClassToken(saved.value) ==>
      saved.value in r && r - {saved.value} == markup - {LightMode, DarkMode} - {saved.value}
    ensures ThemeInitThrows(saved) ==> r == markup - {LightMode, DarkMode}
    ensures !Truthy(saved) ==> r == markup + {LightMode}
  {
    if ThemeInitThrows(saved) then markup - {LightMode, DarkMode}
    else if Truthy(saved) then markup - {LightMode, DarkMode} + {saved.value}
    else markup + {LightMode}
  }

  /** A saved `"dark mode"` stops start-up with neither theme class on the body. */
  lemma SpacedThemeStopsStartup(markup: set<string>)
    ensures ThemeInitThrows(Some("dark mode"))
    ensures var r := InitialClasses(markup, Some("dark mode")); LightMode !in r && DarkMode !in r
  {
    assert "dark mode"[4] == ' ';
  }

  /**
   * The body starts with exactly one theme class iff the saved value names
   * one, or (nothing being saved) the markup does not already say dark.
   */
  lemma InitialOneTheme(markup: set<string>, saved: Option<string>)
    ensures OneTheme(InitialClasses(markup, saved)) <==>
      if Truthy(saved) then saved.value == LightMode || saved.value == DarkMode
      else DarkMode !in markup
  {
    var r := InitialClasses(markup, saved);
    ThemeNamesAreTokens();
    if ThemeInitThrows(saved) {
      assert LightMode !in r && DarkMode !in r;
    } else if Truthy(saved) {
      assert LightMode in r <==> saved.value == LightMode;
      assert DarkMode in r <==> saved.value == DarkMode;
    } else {
      assert LightMode in r;
    }
  }

  /** The body's classes after `RetroMarket.setTheme(t)`: dark iff `t` is `'dark'`. */
  function ThemeSet(classes: set<string>, t: string): (r: set<string>)
    ensures OneTheme(r) && SameBesidesTheme(r, classes)
    ensures DarkMode in r <==> t == "dark"
  {
    classes - {LightMode, DarkMode} + {if t == "dark" then DarkMode else LightMode}
  }

  /** `getTheme` after `setTheme(t)` reports `'dark'` for `'dark'` and `'light'` for every other value. */
  lemma GetAfterSet(classes: set<string>, t: string)
    ensures ThemeOf(ThemeSet(classes, t)) == if t == "dark" then "dark" else "light"
  {
  }

  /** The body's classes after `classList.toggle('rtl')`. */
  function RtlToggled(classes: set<string>): (r: set<string>)
    ensures Rtl in r <==> Rtl !in classes
    ensures r - {Rtl} == classes - {Rtl}
  {
    if Rtl in classes then classes - {Rtl} else classes + {Rtl}
  }

  lemma ToggleRtlTwice(classes: set<string>)
    ensures RtlToggled(RtlToggled(classes)) == classes
  {
  }

  /** The text `updateRTLButtons` writes: the direction a click would switch to. */
  function RtlLabel(isRtl: bool): (text: string)
    ensures text == "LTR" <==> isRtl
    ensures text == "RTL" <==> !isRtl
  {
    if isRtl then "LTR" else "RTL"
  }

  /** `String(isRTL)`, what `setItem('retroRTL', isRTL)` stores. */
  function BoolText(b: bool): (text: string)
    ensures text == "true" <==> b
  {
    if b then "true" else "false"
  }

  /** `document`, `document.body`, `localStorage` and `window` of one page. */
  class Document {
    /** The classes of `document.body`. */
    var bodyClasses: set<string>
    /** `document.body.style.overflow`. */
    var overflow: string
    var storage: map<string, string>
    /** The custom events dispatched on `window`, oldest first. */
    var events: seq<SiteEvent>

    constructor (markup: set<string>, saved: map<string, string>)
      ensures bodyClasses == markup && overflow == "" && storage == saved && events == []
    {
      bodyClasses, overflow, storage, events := markup, "", saved, [];
    }
  }

  /**
   * `initThemeToggle`: the desktop and mobile theme buttons. Both carry the
   * same moon and sun icons and always show the same one; `sunShown` is
   * whether the sun is displayed (which means the page is dark).
   */
  class ThemeToggle {
    const doc: Document
    /** Some theme button holds both a `.fa-moon` and a `.fa-sun` icon. */
    const hasIcons: bool
    /** Start-up got past `classList.add`, so both buttons have their click listeners. */
    const wired: bool
    var sunShown: bool

    /** The icons show the theme the body has. */
    ghost predicate IconsAgree()
      reads this, doc
    {
      hasIcons ==> sunShown == (DarkMode in doc.bodyClasses)
    }

    /**
     * Applies the saved theme, or `light-mode`, and sets the icons from the
     * same value. When the saved value makes `classList.add` throw, the icons
     * keep their markup state (`markupSun`) and no listener is installed.
     */
    constructor (d: Document, icons: bool, markupSun: bool)
      modifies d
      ensures doc == d && hasIcons == icons
      ensures wired == !ThemeInitThrows(Stored(old(d.storage), ThemeKey))
      ensures d.bodyClasses == InitialClasses(old(d.bodyClasses), Stored(old(d.storage), ThemeKey))
      ensures sunShown == if wired then Stored(old(d.storage), ThemeKey) == Some(DarkMode) else markupSun
      ensures IconsAgree() <==>
        || !hasIcons
        || (if wired then Truthy(Stored(old(d.storage), ThemeKey)) || DarkMode !in old(d.bodyClasses) else !markupSun)
      ensures d.overflow == old(d.overflow) && d.storage == old(d.storage) && d.events == old(d.events)
    {
      var saved := Stored(d.storage, ThemeKey);
      var ok := !ThemeInitThrows(saved);
      doc, hasIcons, wired := d, icons, ok;
      sunShown := if ok then saved == Some(DarkMode) else markupSun;
      new;
      ThemeNamesAreTokens();
      d.bodyClasses := InitialClasses(d.bodyClasses, saved);
    }

    /** A click on either theme button: `toggleTheme` when the listeners were installed, nothing otherwise. */
    method Toggle()
      modifies this, doc
      ensures !wired ==> unchanged(this) && unchanged(doc)
      ensures wired ==> doc.bodyClasses == ThemeToggled(old(doc.bodyClasses))
      ensures wired ==> doc.storage == old(doc.storage)[ThemeKey := ToggledThemeName(old(doc.bodyClasses))]
      ensures wired ==> doc.events == old(doc.events) + [ThemeChanged(ThemeOf(doc.bodyClasses))]
      ensures wired ==> sunShown == if hasIcons then LightMode in old(doc.bodyClasses) else old(sunShown)
      ensures doc.overflow == old(doc.overflow)
      ensures wired ==> IconsAgree()
    {
      if !wired {
        return;
      }
      var name := ToggledThemeName(doc.bodyClasses);
      doc.bodyClasses := ThemeToggled(doc.bodyClasses);
      doc.storage := doc.storage[ThemeKey := name];
      if hasIcons {
        sunShown := name == DarkMode;
      }
      doc.events := doc.events + [ThemeChanged(ThemeOf(doc.bodyClasses))];
    }

    /**
     * `RetroMarket.setTheme(t)`, which works on the same body, storage and
     * icons: dark iff `t` is `'dark'`, and `t` itself is both the returned
     * value and the event's `detail`.
     */
    method SetTheme(t: string) returns (r: string)
      modifies this, doc
      ensures r == t
      ensures doc.bodyClasses == ThemeSet(old(doc.bodyClasses), t)
      ensures doc.storage == old(doc.storage)[ThemeKey := if t == "dark" then DarkMode else LightMode]
      ensures doc.events == old(doc.events) + [ThemeChanged(t)]
      ensures sunShown == if hasIcons then t == "dark" else old(sunShown)
      ensures doc.overflow == old(doc.overflow)
      ensures IconsAgree()
    {
      var name := if t == "dark" then DarkMode else LightMode;
      doc.bodyClasses := ThemeSet(doc.bodyClasses, t);
      doc.storage := doc.storage[ThemeKey := name];
      if hasIcons {
        sunShown := t == "dark";
      }
      doc.events := doc.events + [ThemeChanged(t)];
      r := t;
    }
  }

  /**
   * `setTheme` with a value other than `'dark'` and `'light'` makes the page
   * light but announces the value as given, so the `themeChanged` event and
   * `getTheme` then disagree.
   */
  lemma SetThemeEventDisagrees(classes: set<string>, t: string)
    requires t != "dark" && t != "light"
    ensures ThemeOf(ThemeSet(classes, t)) == "light" != t
  {
  }

  /**
   * `initRTLToggle`: the desktop and mobile RTL buttons, whose spans show
   * the same `caption` and whose icons are both turned by 180 degrees when
   * `rotated`.
   */
  class RtlToggle {
    const doc: Document
    /** The desktop `#rtlToggle` exists (the one `RetroMarket.toggleRTL` clicks). */
    const hasDesktopButton: bool
    var caption: string
    var rotated: bool

    /** The buttons offer the direction the page does not have. */
    ghost predicate LabelAgrees()
      reads this, doc
    {
      caption == RtlLabel(Rtl in doc.bodyClasses) && rotated == (Rtl in doc.bodyClasses)
    }

    /** Adds `rtl` iff `'true'` is stored under `retroRTL`, then labels the buttons. */
    constructor (d: Document, desktop: bool)
      modifies d
      ensures doc == d && hasDesktopButton == desktop
      ensures d.bodyClasses == if Stored(old(d.storage), RtlKey) == Some("true") then old(d.bodyClasses) + {Rtl} else old(d.bodyClasses)
      ensures d.overflow == old(d.overflow) && d.storage == old(d.storage) && d.events == old(d.events)
      ensures LabelAgrees()
    {
      doc, hasDesktopButton := d, desktop;
      if Stored(d.storage, RtlKey) == Some("true") {
        d.bodyClasses := d.bodyClasses + {Rtl};
      }
      var isRtl := Rtl in d.bodyClasses;
      caption, rotated := RtlLabel(isRtl), isRtl;
    }

    /** `toggleRTL`: flips `rtl`, stores the new direction, relabels the buttons and dispatches `rtlChanged`. */
    method Toggle()
      modifies this, doc
      ensures doc.bodyClasses == RtlToggled(old(doc.bodyClasses))
      ensures doc.storage == old(doc.storage)[RtlKey := BoolText(Rtl in doc.bodyClasses)]
      ensures doc.events == old(doc.events) + [RtlChanged(Rtl in doc.bodyClasses)]
      ensures doc.overflow == old(doc.overflow)
      ensures LabelAgrees()
    {
      doc.bodyClasses := RtlToggled(doc.bodyClasses);
      var isRtl := Rtl in doc.bodyClasses;
      doc.storage := doc.storage[RtlKey := BoolText(isRtl)];
      caption, rotated := RtlLabel(isRtl), isRtl;
      doc.events := doc.events + [RtlChanged(isRtl)];
    }

    /**
     * `RetroMarket.toggleRTL`: clicks the desktop button, so without one
     * nothing happens. That synthetic click also bubbles to the document's
     * click listeners, among them the desktop dropdowns' outside click, which
     * hides every menu; the caller delivers that click too
     * (`DesktopDropdowns.DropdownList.OutsideClick`).
     */
    method ToggleFromScript()
      modifies this, doc
      ensures hasDesktopButton ==> doc.bodyClasses == RtlToggled(old(doc.bodyClasses))
      ensures hasDesktopButton ==> doc.storage == old(doc.storage)[RtlKey := BoolText(Rtl in doc.bodyClasses)]
      ensures hasDesktopButton ==> doc.events == old(doc.events) + [RtlChanged(Rtl in doc.bodyClasses)]
      ensures !hasDesktopButton ==> unchanged(this, doc)
      ensures old(LabelAgrees()) || hasDesktopButton ==> LabelAgrees()
    {
      if hasDesktopButton {
        Toggle();
      }
    }
  }

  /** What `toggleRTL` leaves in storage is what the next page load reads back. */
  lemma StoredRtlRestores(classes: set<string>, storage: map<string, string>)
    ensures var next := RtlToggled(classes);
      (Stored(storage[RtlKey := BoolText(Rtl in next)], RtlKey) == Some("true")) <==> Rtl in next
  {
  }

  /** What `toggleTheme` leaves in storage, read back by the next page load, gives the same theme classes. */
  lemma StoredThemeRestores(classes: set<string>, storage: map<string, string>, markup: set<string>)
    ensures var saved := Stored(storage[ThemeKey := ToggledThemeName(classes)], ThemeKey);
      var next := InitialClasses(markup, saved);
      OneTheme(next) && (DarkMode in next <==> DarkMode in ThemeToggled(classes))
  {
    var name := ToggledThemeName(classes);
    var saved := Stored(storage[ThemeKey := name], ThemeKey);
    assert saved == Some(name);
    InitialOneTheme(markup, saved);
  }
}
