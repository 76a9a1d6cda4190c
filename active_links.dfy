/**
 * `initActiveLinks`: the navigation links that point at the current page
 * get the `active` class, and so does the top link of the dropdown (desktop
 * or mobile) they sit in. `RetroMarket.getCurrentPage` names the page the
 * same way.
 */
module ActiveLinks {
  import opened Wrappers
  import opened Text

  /** The file name used when the path ends in `/`. */
  const IndexHtml: string := "index.html"

  lemma IndexHtmlIsPlain()
    ensures IndexHtml != [] && '/' !in IndexHtml
  {
  }

  /** `pathname.split('/').pop() || 'index.html'`. */
  function CurrentFile(pathname: string): (r: string)
    ensures r != [] && '/' !in r
    ensures AfterLast(pathname, '/') != [] ==> r == AfterLast(pathname, '/')
    ensures AfterLast(pathname, '/') == [] ==> r == IndexHtml
  {
    IndexHtmlIsPlain();
    LastSegmentOr(pathname, IndexHtml)
  }

  /** A path ending in `/name` is the page `name`: `/shop/cart.html` is `cart.html`. */
  lemma FileOfPath(prefix: string, name: string)
    requires name != [] && '/' !in name
    ensures CurrentFile(prefix + "/" + name) == name
  {
    LastSegmentOfPath(prefix, name, IndexHtml);
  }

  /** A path ending in `/` (the site root included) is the index page. */
  lemma DirectoryIsIndex(prefix: string)
    ensures CurrentFile(prefix + "/") == IndexHtml
  {
    LastSegmentTrailingSlash(prefix, IndexHtml);
  }

  /** `window.location`, as far as the script reads it. */
  datatype Location = Location(pathname: string, hash: string, search: string)

  /** What `RetroMarket.getCurrentPage` returns. */
  datatype PageInfo = PageInfo(path: string, file: string, hash: string, search: string)

  function CurrentPage(loc: Location): (r: PageInfo)
    ensures r.path == loc.pathname && r.hash == loc.hash && r.search == loc.search
    ensures r.file == CurrentFile(loc.pathname) && r.file != [] && '/' !in r.file
  {
    PageInfo(loc.pathname, CurrentFile(loc.pathname), loc.hash, loc.search)
  }

  /**
   * `href && (href === currentPath || href.includes(currentPath.split('.')[0]))`:
   * a link points at the page when its `href` is the file name or contains
   * the file name up to its first dot.
   */
  predicate Matches(href: Option<string>, current: string) {
    href.Some? && href.value != [] && (href.value == current || Includes(href.value, BeforeFirst(current, '.')))
  }

  /** A link whose `href` is exactly the file name matches. */
  lemma ExactHrefMatches(current: string)
    ensures Matches(Some(current), current) <==> current != []
  {
  }

  /**
   * When the file name starts with a dot, the part before the first dot is
   * empty, and every link with an `href` matches.
   */
  lemma DotFileMatchesEverything(current: string, href: string)
    requires current != [] && current[0] == '.' && href != []
    ensures Matches(Some(href), current)
  {
    assert BeforeFirst(current, '.') == [];
    IncludesEmpty(href);
  }

  /** A missing or empty `href` never matches. */
  lemma NoHrefNeverMatches(current: string)
    ensures !Matches(None, current) && !Matches(Some([]), current)
  {
  }

  /**
   * One anchor of the page. `listed` says whether the highlighting query
   * (`.nav-menu a, .mobile-nav-link, .dropdown-item a`) returns it, and
   * `clearable` whether the clearing query
   * (`.nav-link, .dropdown-item a, .mobile-nav-link`, when active) does. The
   * parents are the indices of the `.nav-link` of its closest `.dropdown`
   * and of the `.mobile-nav-link` of its closest `.mobile-dropdown`.
   */
  datatype Link = Link(href: Option<string>, listed: bool, clearable: bool,
                       desktopParent: Option<nat>, mobileParent: Option<nat>)

  /** The link is highlighted itself. */
  predicate Lights(l: Link, current: string) {
    l.listed && Matches(l.href, current)
  }

  /** Link `j` is highlighted and so makes link `i` active: itself or one of its parents. */
  predicate LitBy(links: seq<Link>, current: string, j: nat, i: nat)
    requires j < |links|
  {
    Lights(links[j], current) && (i == j || links[j].desktopParent == Some(i) || links[j].mobileParent == Some(i))
  }

  function Members(o: Option<nat>): (r: set<nat>)
    ensures forall i :: i in r <==> o == Some(i)
  {
    if o.Some? then {o.value} else {}
  }

  /** The links the first `n` highlighted links make active. */
  function Marked(links: seq<Link>, current: string, n: nat): set<nat>
    requires n <= |links|
  {
    if n == 0 then {}
    else
      var l := links[n - 1];
      Marked(links, current, n - 1) +
      (if Lights(l, current) then {n - 1} + Members(l.desktopParent) + Members(l.mobileParent) else {})
  }

  /** A link is among the marked ones iff one of the first `n` links lights it. */
  lemma {:induction false} MarkedMeaning(links: seq<Link>, current: string, n: nat, i: nat)
    requires n <= |links|
    ensures i in Marked(links, current, n) <==> exists j :: 0 <= j < n && LitBy(links, current, j, i)
  {
    if n > 0 {
      MarkedMeaning(links, current, n - 1, i);
      if i in Marked(links, current, n - 1) {
        var j :| 0 <= j < n - 1 && LitBy(links, current, j, i);
        assert 0 <= j < n && LitBy(links, current, j, i);
      }
      if LitBy(links, current, n - 1, i) {
        assert i in Marked(links, current, n);
      }
    }
  }

  /** The links the clearing query returns. */
  function Clearable(links: seq<Link>): (r: set<nat>)
    ensures forall i: nat :: i in r <==> i < |links| && links[i].clearable
  {
    set i: nat | i < |links| && links[i].clearable
  }

  /** The active links after `initActiveLinks`, from those active before. */
  function ActiveAfter(before: set<nat>, links: seq<Link>, current: string): set<nat> {
    (before - Clearable(links)) + Marked(links, current, |links|)
  }

  /**
   * After highlighting, a link is active iff some highlighted link is it or
   * sits under it, or it was active before and the clearing query misses it.
   */
  lemma ActiveMeaning(before: set<nat>, links: seq<Link>, current: string, i: nat)
    ensures i in ActiveAfter(before, links, current) <==>
      (i in before && !(i < |links| && links[i].clearable)) || exists j :: 0 <= j < |links| && LitBy(links, current, j, i)
  {
    MarkedMeaning(links, current, |links|, i);
  }

  /** A highlighted link and its parents are active, whatever was active before. */
  lemma LitLinkActive(before: set<nat>, links: seq<Link>, current: string, j: nat)
    requires j < |links| && Lights(links[j], current)
    ensures j in ActiveAfter(before, links, current)
    ensures links[j].desktopParent.Some? ==> links[j].desktopParent.value in ActiveAfter(before, links, current)
    ensures links[j].mobileParent.Some? ==> links[j].mobileParent.value in ActiveAfter(before, links, current)
  {
    MarkedMeaning(links, current, |links|, j);
    assert LitBy(links, current, j, j);
    if links[j].desktopParent.Some? {
      var p := links[j].desktopParent.value;
      MarkedMeaning(links, current, |links|, p);
      assert LitBy(links, current, j, p);
    }
    if links[j].mobileParent.Some? {
      var p := links[j].mobileParent.value;
      MarkedMeaning(links, current, |links|, p);
      assert LitBy(links, current, j, p);
    }
  }

  class NavLinks {
    /** Every anchor the two queries can return, in document order. */
    const links: seq<Link>
    /** The indices of the anchors with the `active` class. */
    var active: set<nat>

    constructor (anchors: seq<Link>, initiallyActive: set<nat>)
      ensures links == anchors && active == initiallyActive
    {
      links, active := anchors, initiallyActive;
    }

    /** `initActiveLinks` on the page at `pathname`: clears the old highlighting, then highlights link by link. */
    method HighlightActive(pathname: string)
      modifies this
      ensures active == ActiveAfter(old(active), links, CurrentFile(pathname))
    {
      ClearActive();
      MarkCurrent(CurrentFile(pathname));
    }

    /** Removes `active` from every anchor the clearing query returns. */
    method ClearActive()
      modifies this
      ensures active == old(active) - Clearable(links)
    {
      var i := 0;
      while i < |links|
        invariant 0 <= i <= |links|
        invariant forall j: nat :: j in active <==> j in old(active) && !(j < i && links[j].clearable)
      {
        if links[i].clearable {
          active := active - {i};
        }
        i := i + 1;
      }
    }

    /** Adds `active` to every listed link that matches `current`, and to its parents. */
    method MarkCurrent(current: string)
      modifies this
      ensures active == old(active) + Marked(links, current, |links|)
    {
      var i := 0;
      while i < |links|
        invariant 0 <= i <= |links|
        invariant active == old(active) + Marked(links, current, i)
      {
        var l := links[i];
        if Lights(l, current) {
          active := active + {i} + Members(l.desktopParent) + Members(l.mobileParent);
        }
        i := i + 1;
      }
    }
  }
}

/**
 * The scroll handler at the end of `main.js`: the `.header` hides while the
 * page scrolls down past 100 pixels and shows again otherwise. When the page
 * has no `.header`, the handler throws on `header.classList` before it
 * records the position, so `lastScroll` stays 0.
 */
module HeaderScroll {
  /** The offset below which the header is always shown. */
  const Threshold: int := 100

  /** The header hides iff the page moved down and is past the threshold. */
  predicate Hides(lastScroll: int, current: int) {
    current > lastScroll && current > Threshold
  }

  /** Near the top, or when scrolling up or not moving, the header shows. */
  lemma ShowsUnlessScrollingDownLow(lastScroll: int, current: int)
    ensures current <= Threshold ==> !Hides(lastScroll, current)
    ensures current <= lastScroll ==> !Hides(lastScroll, current)
    ensures Hides(lastScroll, current) <==> current > Threshold && current > lastScroll
  {
  }

  /** The `hide` class after a run of scroll events, and the last offset recorded. */
  function AfterScrolls(lastScroll: int, hidden: bool, offsets: seq<int>): (r: (int, bool))
    ensures offsets == [] ==> r == (lastScroll, hidden)
    ensures offsets != [] ==> r.0 == offsets[|offsets| - 1]
    decreases |offsets|
  {
    if offsets == [] then (lastScroll, hidden)
    else
      var prev := AfterScrolls(lastScroll, hidden, offsets[..|offsets| - 1]).0;
      (offsets[|offsets| - 1], Hides(prev, offsets[|offsets| - 1]))
  }

  /** After two or more events only the last two offsets decide whether the header is hidden. */
  lemma {:induction false} LastTwoDecide(lastScroll: int, hidden: bool, offsets: seq<int>)
    requires |offsets| >= 2
    ensures AfterScrolls(lastScroll, hidden, offsets).1 == Hides(offsets[|offsets| - 2], offsets[|offsets| - 1])
  {
    var init := offsets[..|offsets| - 1];
    assert init[|init| - 1] == offsets[|offsets| - 2];
  }

  class HeaderOnScroll {
    /** `document.querySelector('.header')` found an element. */
    const present: bool
    var lastScroll: int
    /** The header's `hide` class. */
    var hidden: bool

    constructor (hasHeader: bool, initiallyHidden: bool)
      ensures present == hasHeader && lastScroll == 0 && hidden == initiallyHidden
    {
      present, lastScroll, hidden := hasHeader, 0, initiallyHidden;
    }

    /** One `scroll` event at `window.pageYOffset == current`. */
    method Scroll(current: int)
      modifies this
      ensures present ==> (lastScroll, hidden) == AfterScrolls(old(lastScroll), old(hidden), [current])
      ensures present ==> lastScroll == current && (hidden <==> current > old(lastScroll) && current > Threshold)
      ensures !present ==> lastScroll == old(lastScroll) && hidden == old(hidden)
    {
      if present {
        hidden := Hides(lastScroll, current);
        lastScroll := current;
      }
    }

    /** The scroll events at `offsets`, one after the other. */
    method ScrollThrough(offsets: seq<int>)
      modifies this
      ensures present ==> (lastScroll, hidden) == AfterScrolls(old(lastScroll), old(hidden), offsets)
      ensures !present ==> lastScroll == old(lastScroll) && hidden == old(hidden)
    {
      var i := 0;
      while i < |offsets|
        invariant 0 <= i <= |offsets|
        invariant present ==> (lastScroll, hidden) == AfterScrolls(old(lastScroll), old(hidden), offsets[..i])
        invariant !present ==> lastScroll == old(lastScroll) && hidden == old(hidden)
      {
        assert offsets[..i + 1][..i] == offsets[..i];
        Scroll(offsets[i]);
        i := i + 1;
      }
      assert offsets[..|offsets|] == offsets;
    }
  }
}
