/**
 * `FAQInteractions.toggleExpand`: at most one question is expanded. The
 * delayed `scrollIntoView` and the hover animation are presentation.
 */
module Faq {
  /** No two items are expanded. */
  ghost predicate AtMostOne(expanded: seq<bool>) {
    forall i, j :: 0 <= i < j < |expanded| && expanded[i] ==> !expanded[j]
  }

  /** The `expanded` classes after `toggleExpand(item k)`: every other item closes, item `k` flips. */
  function Toggled(expanded: seq<bool>, k: nat): (r: seq<bool>)
    requires k < |expanded|
    ensures |r| == |expanded|
  {
    seq(|expanded|, i requires 0 <= i < |expanded| => if i == k then !expanded[k] else false)
  }

  /** After any toggle at most one item is expanded, whatever the state before. */
  lemma ToggledAtMostOne(expanded: seq<bool>, k: nat)
    requires k < |expanded|
    ensures AtMostOne(Toggled(expanded, k))
    ensures forall i :: 0 <= i < |expanded| && Toggled(expanded, k)[i] ==> i == k
  {
  }

  /** Item `k` ends up expanded iff it was not expanded before. */
  lemma ToggledFlips(expanded: seq<bool>, k: nat)
    requires k < |expanded|
    ensures Toggled(expanded, k)[k] == !expanded[k]
  {
  }

  /** Clicking the expanded item leaves none expanded. */
  lemma ToggleExpandedClosesAll(expanded: seq<bool>, k: nat)
    requires k < |expanded| && expanded[k]
    ensures forall i :: 0 <= i < |expanded| ==> !Toggled(expanded, k)[i]
  {
  }

  /** Clicking the same item twice leaves only that item open or nothing open, as it was before the first click. */
  lemma ToggleTwice(expanded: seq<bool>, k: nat)
    requires k < |expanded|
    ensures Toggled(Toggled(expanded, k), k)[k] == expanded[k]
    ensures forall i :: 0 <= i < |expanded| && i != k ==> !Toggled(Toggled(expanded, k), k)[i]
  {
  }

  class FaqList {
    /** The `expanded` class of each `.faq-item`. */
    const expanded: array<bool>

    constructor (initial: seq<bool>)
      ensures fresh(expanded) && expanded[..] == initial
    {
      expanded := new bool[|initial|](i requires 0 <= i < |initial| => initial[i]);
    }

    /** `toggleExpand(item k)`. */
    method ToggleExpand(k: nat)
      requires k < expanded.Length
      modifies expanded
      ensures expanded[..] == Toggled(old(expanded[..]), k)
    {
      var wasExpanded := expanded[k];
      var i := 0;
      while i < expanded.Length
        invariant 0 <= i <= expanded.Length
        invariant forall j :: 0 <= j < i && j != k ==> !expanded[j]
        invariant forall j :: i <= j < expanded.Length || j == k ==> 0 <= j < expanded.Length ==> expanded[j] == old(expanded[j])
      {
        if i != k {
          expanded[i] := false;
        }
        i := i + 1;
      }
      expanded[k] := !wasExpanded;
    }

    /** A click on item `k`; a click on a link inside it is ignored. */
    method Clicked(k: nat, onLink: bool)
      requires k < expanded.Length
      modifies expanded
      ensures expanded[..] == if onLink then old(expanded[..]) else Toggled(old(expanded[..]), k)
    {
      if !onLink {
        ToggleExpand(k);
      }
    }
  }
}

/**
 * `AnimatedCounters`: each `.stat-number` counts up to the number formed by
 * its digits and keeps its other characters as a suffix. Only the text at
 * the end of the animation is modelled; the frames in between depend on
 * the clock and on floating-point easing.
 */
module Counters {
  import opened Text

  /**
   * `end + suffix` for a stat whose text is `text`: `parseInt` of its digits
   * (`NaN` when it has none) followed by its non-digit characters.
   */
  /** `String(NaN)`. */
  const NaN: string := "NaN"

  lemma NaNHasNoDigits()
    ensures forall k :: 0 <= k < |NaN| ==> !IsDigit(NaN[k])
  {
  }

  function FinalText(text: string): (r: string)
    ensures Digits(text) == [] ==> r == NaN + NonDigits(text)
    ensures Digits(text) != [] ==> Digits(r) == NatToDecimal(DecimalValue(Digits(text)))
    ensures |r| >= |NonDigits(text)| && r[|r| - |NonDigits(text)|..] == NonDigits(text)
  {
    var ds := Digits(text);
    if ds == [] then NaN + NonDigits(text)
    else
      var n := NatToDecimal(DecimalValue(ds));
      DigitsAppend(n, NonDigits(text));
      DigitsOfDigits(n);
      NonDigitsOfNonDigits(NonDigits(text));
      n + NonDigits(text)
  }

  /** A stat with digits shows the same number, and the same suffix, after the animation. */
  lemma FinalTextValue(text: string)
    requires Digits(text) != []
    ensures DecimalValue(Digits(FinalText(text))) == DecimalValue(Digits(text))
    ensures NonDigits(FinalText(text)) == NonDigits(text)
  {
    var n := NatToDecimal(DecimalValue(Digits(text)));
    DecimalRoundTrip(DecimalValue(Digits(text)));
    DigitsAppend(n, NonDigits(text));
    DigitsOfDigits(n);
    NonDigitsOfNonDigits(NonDigits(text));
  }

  /** Animating a stat with digits a second time changes nothing. */
  lemma FinalTextIdempotent(text: string)
    requires Digits(text) != []
    ensures FinalText(FinalText(text)) == FinalText(text)
  {
    FinalTextValue(text);
    var t := FinalText(text);
    assert Digits(t) == NatToDecimal(DecimalValue(Digits(text)));
    assert Digits(t) != [];
  }

  /** A stat with no digits ends as `NaN` and its text: animating it again would repeat the `NaN`. */
  lemma FinalTextWithoutDigits(text: string)
    requires Digits(text) == []
    ensures FinalText(FinalText(text)) == NaN + NaN + NonDigits(text)
  {
    var suffix := NonDigits(text);
    NaNHasNoDigits();
    PlainPrefix(NaN, text);
    var once := FinalText(text);
    assert once == NaN + suffix;
    assert Digits(once) == [] && NonDigits(once) == NaN + suffix;
    assert FinalText(once) == NaN + NonDigits(once);
  }

  /** Filtering a string that starts with no digits keeps that start. */
  lemma PlainPrefix(p: string, s: string)
    requires forall k :: 0 <= k < |p| ==> !IsDigit(p[k])
    requires Digits(s) == []
    ensures Digits(p + NonDigits(s)) == [] && NonDigits(p + NonDigits(s)) == p + NonDigits(s)
  {
    NonDigitsOfNonDigits(p);
    NonDigitsOfNonDigits(NonDigits(s));
    DigitsAppend(p, NonDigits(s));
  }

  /** The texts every stat ends with. */
  function FinalTexts(texts: seq<string>): (r: seq<string>)
    ensures |r| == |texts| && forall i :: 0 <= i < |texts| ==> r[i] == FinalText(texts[i])
  {
    seq(|texts|, i requires 0 <= i < |texts| => FinalText(texts[i]))
  }

  class CounterBoard {
    /** The text of each `.stat-number`. */
    const stats: array<string>
    /** `this.animated`. */
    var animated: bool

    /** `new AnimatedCounters()`: animates at once if the first stat is on screen. */
    constructor (texts: seq<string>, inViewport: bool)
      ensures fresh(stats)
      ensures animated == (|texts| > 0 && inViewport)
      ensures stats[..] == if animated then FinalTexts(texts) else texts
    {
      stats := new string[|texts|](i requires 0 <= i < |texts| => texts[i]);
      animated := false;
      new;
      if |texts| > 0 && inViewport {
        AnimateCounters();
        animated := true;
      }
    }

    /** `animateCounters`: every stat moves to its final text. */
    method AnimateCounters()
      modifies stats
      ensures stats[..] == FinalTexts(old(stats[..]))
    {
      ghost var goal := FinalTexts(stats[..]);
      var i := 0;
      while i < stats.Length
        invariant 0 <= i <= stats.Length
        invariant forall j :: 0 <= j < i ==> stats[j] == goal[j]
        invariant forall j :: i <= j < stats.Length ==> stats[j] == old(stats[j])
      {
        assert goal[i] == FinalText(stats[i]);
        stats[i] := FinalText(stats[i]);
        i := i + 1;
      }
      assert stats[..] == goal;
    }

    /** A `scroll` event: the counters animate the first time the stats are on screen, and never again. */
    method Scrolled(inViewport: bool)
      modifies this, stats
      ensures animated == (old(animated) || inViewport)
      ensures stats[..] == if !old(animated) && inViewport then FinalTexts(old(stats[..])) else old(stats[..])
    {
      if !animated && inViewport {
        AnimateCounters();
        animated := true;
      }
    }
  }
}

/**
 * `FormAutoSave`: the draft of the contact form kept in local storage under
 * one key, as the JSON object `saveData` writes and `loadSavedData` reads.
 */
module AutoSave {
  import opened Wrappers

  const StorageKey := "retroMarket_contactForm"
  const FieldNames: set<string> := {"name", "email", "subject", "message"}

  /** The saved object: a value per field found on the page, and `subscribe` if the checkbox exists. */
  datatype Draft = Draft(values: map<string, string>, subscribe: Option<bool>)

  /** The form on the page: the value of each field element present, and the checkbox state if it exists. */
  datatype Page = Page(values: map<string, string>, subscribe: Option<bool>)

  /** `saveData`: records every present field of the four, and the checkbox. */
  function SaveDraft(p: Page): (d: Draft)
    ensures forall f :: f in d.values <==> f in p.values && f in FieldNames
    ensures forall f :: f in d.values ==> d.values[f] == p.values[f]
    ensures d.subscribe == p.subscribe
  {
    Draft(map f | f in p.values && f in FieldNames :: p.values[f], p.subscribe)
  }

  /**
   * `loadSavedData` on a stored draft: a present field takes its saved value
   * only when that value is non-empty, and the checkbox is only ever set, to
   * checked, when it was saved as checked.
   */
  function Restored(p: Page, d: Draft): (q: Page)
    ensures q.values.Keys == p.values.Keys
    ensures forall f :: f in p.values ==>
      q.values[f] == if f in FieldNames && f in d.values && d.values[f] != "" then d.values[f] else p.values[f]
    ensures q.subscribe == if p.subscribe.Some? && d.subscribe == Some(true) then Some(true) else p.subscribe
  {
    Page(map f | f in p.values :: if f in FieldNames && f in d.values && d.values[f] != "" then d.values[f] else p.values[f],
         if p.subscribe.Some? && d.subscribe == Some(true) then Some(true) else p.subscribe)
  }

  /** Loading a draft saved from page `p` restores every non-empty field of `p` present on the new page. */
  lemma LoadAfterSave(p: Page, q: Page, f: string)
    requires f in FieldNames && f in p.values && f in q.values && p.values[f] != ""
    ensures Restored(q, SaveDraft(p)).values[f] == p.values[f]
  {
  }

  /** An empty saved value never overwrites a field. */
  lemma EmptyNeverOverwrites(q: Page, d: Draft, f: string)
    requires f in q.values && f in d.values && d.values[f] == ""
    ensures Restored(q, d).values[f] == q.values[f]
  {
  }

  /** The checkbox is restored only when it was saved as checked. */
  lemma SubscribeOnlyWhenChecked(q: Page, d: Draft)
    requires q.subscribe.Some?
    ensures Restored(q, d).subscribe.value == (d.subscribe == Some(true) || q.subscribe.value)
  {
  }

  /** Restoring a page's own draft leaves the page as it is. */
  lemma RestoreOwnDraft(p: Page)
    requires forall f :: f in p.values ==> f in FieldNames
    ensures Restored(p, SaveDraft(p)) == p
  {
    var q := Restored(p, SaveDraft(p));
    assert q.values == p.values;
  }

  class FormAutoSave {
    /** The entry under `StorageKey` in local storage. */
    var saved: Option<Draft>
    var page: Page
    /** "Draft restored" messages shown. */
    var restoreNotices: nat

    constructor (stored: Option<Draft>, initial: Page)
      ensures saved == stored && restoreNotices == (if stored.Some? then 1 else 0)
      ensures page == if stored.Some? then Restored(initial, stored.value) else initial
    {
      saved, page, restoreNotices := stored, initial, 0;
      new;
      LoadSavedData();
    }

    /** `saveData`, run on every `input` in a field. */
    method SaveData()
      modifies this
      ensures saved == Some(SaveDraft(page)) && page == old(page) && restoreNotices == old(restoreNotices)
    {
      saved := Some(SaveDraft(page));
    }

    /** Typing `v` into field `f`: the field takes the value and its `input` listener runs `saveData`. */
    method Type(f: string, v: string)
      requires f in FieldNames && f in page.values
      modifies this
      ensures page == old(page).(values := old(page).values[f := v])
      ensures saved == Some(SaveDraft(page)) && restoreNotices == old(restoreNotices)
    {
      page := page.(values := page.values[f := v]);
      SaveData();
    }

    /** `loadSavedData`: nothing without a stored draft; otherwise restore it and show the restore message. */
    method LoadSavedData()
      modifies this
      ensures saved == old(saved)
      ensures page == if saved.Some? then Restored(old(page), saved.value) else old(page)
      ensures restoreNotices == if saved.Some? then old(restoreNotices) + 1 else old(restoreNotices)
    {
      if saved.Some? {
        page := Restored(page, saved.value);
        restoreNotices := restoreNotices + 1;
      }
    }

    /** `clearSavedData`, run when the success message becomes visible. */
    method ClearSavedData()
      modifies this
      ensures saved.None? && page == old(page) && restoreNotices == old(restoreNotices)
    {
      saved := None;
    }
  }
}

/** `SocialInteractions.trackClick`: the platform name logged for a social link. */
module Social {
  import opened Text

  /** The name logged when the link has no last segment. */
  const Unknown: string := "unknown"

  lemma UnknownIsPlain()
    ensures Unknown != [] && '/' !in Unknown
  {
  }

  /** `link.href.split('/').pop() || 'unknown'`. */
  function Platform(href: string): (r: string)
    ensures r != [] && '/' !in r
    ensures AfterLast(href, '/') != [] ==> r == AfterLast(href, '/')
    ensures AfterLast(href, '/') == [] ==> r == Unknown
  {
    UnknownIsPlain();
    LastSegmentOr(href, Unknown)
  }

  /** The last path segment names the platform. */
  lemma PlatformOfPath(prefix: string, name: string)
    requires name != [] && '/' !in name
    ensures Platform(prefix + "/" + name) == name
  {
    LastSegmentOfPath(prefix, name, Unknown);
  }

  /** A link ending in `/` is logged as `unknown`. */
  lemma PlatformTrailingSlash(prefix: string)
    ensures Platform(prefix + "/") == Unknown
  {
    LastSegmentTrailingSlash(prefix, Unknown);
  }

}
