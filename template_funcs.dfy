/** The helper functions every normal template can call: the relative-time
    formatter `since`, the pagination widget `paginate`, the argument
    collector `array` and the map setter `set`. */
module TemplateFuncs {
  import opened Text

  // ---------------------------------------------------------------------------
  // since

  const MINUTE := 60
  const HOUR := 60 * 60
  const DAY := 60 * 60 * 24
  const MONTH := 60 * 60 * 24 * 30

  datatype Unit = Minute | Hour | Day | Month

  function UnitSeconds(u: Unit): nat
  {
    match u
    case Minute => MINUTE
    case Hour => HOUR
    case Day => DAY
    case Month => MONTH
  }

  /** How many of a unit are shown before the next larger unit (or "a year") takes over. */
  function Span(u: Unit): nat
  {
    match u
    case Minute => 60
    case Hour => 24
    case Day => 30
    case Month => 12
  }

  /** An elapsed time as the formatter reports it. */
  datatype Age = UnderMinute | Ago(count: nat, unit: Unit) | OverYear

  /** The reference reading of an elapsed time: the largest unit that fits, counted
      down to whole units; below a minute and from twelve months on only a bound is shown. */
  function AgeOf(seconds: int): (a: Age)
    ensures a == UnderMinute <==> seconds < MINUTE
    ensures a == OverYear <==> seconds >= 12 * MONTH
    ensures a.Ago? ==>
              && 1 <= a.count < Span(a.unit)
              && a.count * UnitSeconds(a.unit) <= seconds < (a.count + 1) * UnitSeconds(a.unit)
  {
    if seconds < MINUTE then UnderMinute
    else if seconds >= 12 * MONTH then OverYear
    else
      var u := if seconds >= MONTH then Month else if seconds >= DAY then Day else if seconds >= HOUR then Hour else Minute;
      CountBounds(seconds, UnitSeconds(u), Span(u));
      Ago(seconds / UnitSeconds(u), u)
  }

  /** Between one unit and `span` units, the whole count lies in `1..span-1` and brackets the time. */
  lemma CountBounds(seconds: int, d: nat, span: nat)
    requires 0 < d <= seconds < span * d
    ensures 1 <= seconds / d < span
    ensures (seconds / d) * d <= seconds < (seconds / d + 1) * d
  {
    var q := seconds / d;
    assert q * d + seconds % d == seconds;
    if q >= span {
      MulMonotone(span, q, d);
    }
  }

  lemma MulMonotone(a: nat, b: nat, d: nat)
    requires a <= b
    ensures a * d <= b * d
  {
  }

  /** At most one whole count `n` has `n * d <= seconds < (n + 1) * d`. */
  lemma CountIsForced(seconds: int, d: nat, m: nat, n: nat)
    requires m * d <= seconds < (m + 1) * d
    requires n * d <= seconds < (n + 1) * d
    ensures m == n
  {
    if m != n {
      var lo, hi := if m < n then m else n, if m < n then n else m;
      MulMonotone(lo + 1, hi, d);
    }
  }

  /** The reading is the only one with those properties: the unit and the count are forced. */
  lemma AgeOfIsUnique(seconds: int, a: Age)
    requires a.Ago? && 1 <= a.count < Span(a.unit)
    requires a.count * UnitSeconds(a.unit) <= seconds < (a.count + 1) * UnitSeconds(a.unit)
    ensures AgeOf(seconds) == a
  {
    var d := UnitSeconds(a.unit);
    MulMonotone(1, a.count, d);
    MulMonotone(a.count + 1, Span(a.unit), d);
    assert AgeOf(seconds).unit == a.unit by {
      match a.unit
      case Minute => assert MINUTE <= seconds < HOUR;
      case Hour => assert HOUR <= seconds < DAY;
      case Day => assert DAY <= seconds < MONTH;
      case Month => assert MONTH <= seconds < 12 * MONTH;
    }
    CountIsForced(seconds, d, a.count, AgeOf(seconds).count);
  }

  /** "1 <unit> ago" and " <unit>s ago", as the formatter spells them. */
  function Singular(u: Unit): string
  {
    match u
    case Minute => "1 minute ago"
    case Hour => "1 hour ago"
    case Day => "1 day ago"
    case Month => "1 month ago"
  }

  function PluralSuffix(u: Unit): string
  {
    match u
    case Minute => " minutes ago"
    case Hour => " hours ago"
    case Day => " days ago"
    case Month => " months ago"
  }

  /** What the formatter prints for an age. */
  function Phrase(a: Age): string
  {
    match a
    case UnderMinute => "< 1 minute ago"
    case OverYear => "> 1 year ago"
    case Ago(n, u) => if n == 1 then Singular(u) else IntToString(n) + PluralSuffix(u)
  }

  /** `since`, given the elapsed time in whole seconds (negative when the time lies ahead). */
  function Since(seconds: int): (r: string)
    ensures seconds < 60 ==> r == "< 1 minute ago"
    ensures seconds >= 60 * 60 * 24 * 30 * 12 ==> r == "> 1 year ago"
  {
    if seconds < 60 then "< 1 minute ago"
    else if seconds < 60 * 2 then "1 minute ago"
    else if seconds < 60 * 60 then IntToString(seconds / 60) + " minutes ago"
    else if seconds < 60 * 60 * 2 then "1 hour ago"
    else if seconds < 60 * 60 * 24 then IntToString(seconds / (60 * 60)) + " hours ago"
    else if seconds < 60 * 60 * 24 * 2 then "1 day ago"
    else if seconds < 60 * 60 * 24 * 30 then IntToString(seconds / (60 * 60 * 24)) + " days ago"
    else if seconds < 60 * 60 * 24 * 30 * 2 then "1 month ago"
    else if seconds < 60 * 60 * 24 * 30 * 12 then IntToString(seconds / (60 * 60 * 24 * 30)) + " months ago"
    else "> 1 year ago"
  }

  /** The formatter prints the reference reading of the elapsed time: the largest
      unit that fits, the count truncated to whole units, singular for one. */
  lemma SinceReadsAge(seconds: int)
    ensures Since(seconds) == Phrase(AgeOf(seconds))
  {
    var a := AgeOf(seconds);
    if seconds >= 12 * MONTH || seconds < MINUTE {
    } else if seconds >= MONTH {
      CountOfUnit(seconds, MONTH);
      assert a == Ago(seconds / MONTH, Month);
    } else if seconds >= DAY {
      CountOfUnit(seconds, DAY);
      assert a == Ago(seconds / DAY, Day);
    } else if seconds >= HOUR {
      CountOfUnit(seconds, HOUR);
      assert a == Ago(seconds / HOUR, Hour);
    } else {
      CountOfUnit(seconds, MINUTE);
      assert a == Ago(seconds / MINUTE, Minute);
    }
  }

  /** From one unit on, the count is one exactly below two units. */
  lemma CountOfUnit(seconds: int, d: int)
    requires 0 < d <= seconds
    ensures seconds / d >= 1
    ensures seconds / d == 1 <==> seconds < 2 * d
  {
    var q := seconds / d;
    assert q * d <= seconds < (q + 1) * d;
    if q >= 2 {
      MulMonotone(2, q, d);
    }
  }

  lemma SinceExamples()
    ensures Since(45) == "< 1 minute ago"
    ensures Since(-5) == "< 1 minute ago"
    ensures Since(10800) == "3 hours ago"
  {
  }

  // ---------------------------------------------------------------------------
  // paginate

  /** One `<li>` of the pagination widget. */
  datatype Item = First | Prev(page: int) | Ellipsis | PageLink(page: int, active: bool) | Next(page: int) | Last

  function RenderItem(url: string, it: Item): string
  {
    match it
    case First => "<li><a href='" + url + "/page/first'>&laquo;First</a></li>"
    case Prev(p) => "<li><a href='" + url + "/page/" + IntToString(p) + "'>&laquo;</a></li>"
    case Ellipsis => "<li><span>...</span></li>"
    case PageLink(p, active) =>
      (if active then "<li class='active'>" else "<li>")
      + "<a href='" + url + "/page/" + IntToString(p) + "'>" + IntToString(p) + "</a></li>"
    case Next(p) => "<li><a href='" + url + "/page/" + IntToString(p) + "'>&raquo;</a></li>"
    case Last => "<li><a href='" + url + "/page/last'>Last&raquo;</a></li>"
  }

  /** The HTML of a row of items: every item's HTML, left to right. */
  function Join<T>(render: T -> string, items: seq<T>): string
  {
    if items == [] then "" else Join(render, items[..|items| - 1]) + render(items[|items| - 1])
  }

  lemma JoinSnoc<T>(render: T -> string, items: seq<T>, it: T)
    ensures Join(render, items + [it]) == Join(render, items) + render(it)
  {
    assert (items + [it])[..|items|] == items;
  }

  /** Text after a fixed head grows by one rendered item. */
  lemma JoinAfter<T>(head: string, render: T -> string, items: seq<T>, it: T)
    ensures head + Join(render, items) + render(it) == head + Join(render, items + [it])
  {
    JoinSnoc(render, items, it);
  }

  /** `RenderItem` for one base URL, as a function value. */
  function Renderer(url: string): Item -> string
  {
    it => RenderItem(url, it)
  }

  /** The numbered links for the pages `lo <= i < hi` that exist (`1 <= i <= nPages`). */
  function PageItems(curPage: int, nPages: int, lo: int, hi: int): seq<Item>
    decreases hi - lo
  {
    if hi <= lo then []
    else PageItems(curPage, nPages, lo, hi - 1)
         + (if 0 < hi - 1 <= nPages then [PageLink(hi - 1, hi - 1 == curPage)] else [])
  }

  /** The items before the numbered links: first and previous, then the leading ellipsis. */
  function Before(curPage: int, offset: int): seq<Item>
  {
    (if curPage > 1 then [First, Prev(curPage - 1)] else []) + (if curPage - offset > 1 then [Ellipsis] else [])
  }

  /** The items after the numbered links: the trailing ellipsis, then next and last. */
  function After(curPage: int, nPages: int, offset: int): seq<Item>
  {
    (if curPage + offset < nPages then [Ellipsis] else []) + (if curPage != nPages then [Next(curPage + 1), Last] else [])
  }

  /** The widget's items, left to right. */
  function Items(curPage: int, nPages: int, offset: int): seq<Item>
  {
    Before(curPage, offset) + PageItems(curPage, nPages, curPage - offset, curPage + offset + 1) + After(curPage, nPages, offset)
  }

  /** The HTML `paginate` returns. */
  function PaginationHtml(curPage: int, nPages: int, offset: int, url: string): (r: string)
    ensures nPages < 2 ==> r == ""
    ensures nPages >= 2 ==> HasPrefix(r, "<ul class='pagination'>") && HasSuffix(r, "</ul>")
  {
    if nPages < 2 then ""
    else OPEN_LIST + Join(Renderer(url), Items(curPage, nPages, offset)) + "</ul>"
  }

  const OPEN_LIST := "<ul class='pagination'>"

  /** Appending one item's HTML to the widget built so far. */
  lemma AppendItem(url: string, html: string, shown: seq<Item>, it: Item)
    requires html == OPEN_LIST + Join(Renderer(url), shown)
    ensures html + RenderItem(url, it) == OPEN_LIST + Join(Renderer(url), shown + [it])
  {
    var render := Renderer(url);
    JoinAfter(OPEN_LIST, render, shown, it);
    assert render(it) == RenderItem(url, it);
  }

  /** One more page considered: its link follows the links so far, if the page exists. */
  lemma PagesStep(before: seq<Item>, curPage: int, nPages: int, lo: int, i: int)
    requires lo <= i
    ensures 0 < i <= nPages ==>
              before + PageItems(curPage, nPages, lo, i + 1) == before + PageItems(curPage, nPages, lo, i) + [PageLink(i, i == curPage)]
    ensures !(0 < i <= nPages) ==>
              before + PageItems(curPage, nPages, lo, i + 1) == before + PageItems(curPage, nPages, lo, i)
  {
    if 0 < i <= nPages {
      assert before + PageItems(curPage, nPages, lo, i + 1) == before + (PageItems(curPage, nPages, lo, i) + [PageLink(i, i == curPage)]);
    } else {
      assert PageItems(curPage, nPages, lo, i + 1) == PageItems(curPage, nPages, lo, i) + [];
    }
  }

  /** Closing the list once every item is in gives the widget. */
  lemma CloseList(curPage: int, nPages: int, offset: int, url: string, html: string)
    requires nPages >= 2
    requires html == OPEN_LIST + Join(Renderer(url), Before(curPage, offset)
                       + PageItems(curPage, nPages, curPage - offset, curPage + offset + 1) + After(curPage, nPages, offset))
    ensures html + "</ul>" == PaginationHtml(curPage, nPages, offset, url)
  {
  }

  /** Appends one item's HTML to the widget built so far. */
  method Emit(url: string, html: string, ghost shown: seq<Item>, it: Item) returns (longer: string)
    requires html == OPEN_LIST + Join(Renderer(url), shown)
    ensures longer == OPEN_LIST + Join(Renderer(url), shown + [it])
  {
    AppendItem(url, html, shown, it);
    longer := html + RenderItem(url, it);
  }

  /** The first part of `paginate`: the first and previous links, then the leading ellipsis. */
  method EmitBefore(curPage: int, offset: int, url: string) returns (html: string)
    ensures html == OPEN_LIST + Join(Renderer(url), Before(curPage, offset))
  {
    html := OPEN_LIST;
    ghost var shown: seq<Item> := [];
    if curPage > 1 {
      html := Emit(url, html, shown, First);
      shown := shown + [First];
      html := Emit(url, html, shown, Prev(curPage - 1));
      shown := shown + [Prev(curPage - 1)];
    }
    if curPage - offset > 1 {
      html := Emit(url, html, shown, Ellipsis);
      shown := shown + [Ellipsis];
    }
    assert shown == Before(curPage, offset);
  }

  /** The loop of `paginate`: a link for every page of the window that exists. */
  method EmitPages(curPage: int, nPages: int, offset: int, url: string, html: string, ghost before: seq<Item>)
    returns (longer: string)
    requires html == OPEN_LIST + Join(Renderer(url), before)
    ensures longer == OPEN_LIST + Join(Renderer(url), before + PageItems(curPage, nPages, curPage - offset, curPage + offset + 1))
  {
    longer := html;
    ghost var shown := before;
    var lo, hi := curPage - offset, curPage + offset + 1;
    var i := lo;
    assert shown == before + PageItems(curPage, nPages, lo, i) by {
      assert PageItems(curPage, nPages, lo, lo) == [];
      assert before + [] == before;
    }
    while i < hi
      invariant lo <= i && (i <= hi || i == lo)
      invariant shown == before + PageItems(curPage, nPages, lo, i)
      invariant longer == OPEN_LIST + Join(Renderer(url), shown)
    {
      PagesStep(before, curPage, nPages, lo, i);
      if i > 0 && i <= nPages {
        if i == curPage {
          longer := Emit(url, longer, shown, PageLink(i, true));
          shown := shown + [PageLink(i, true)];
        } else {
          longer := Emit(url, longer, shown, PageLink(i, false));
          shown := shown + [PageLink(i, false)];
        }
      }
      i := i + 1;
    }
    assert shown == before + PageItems(curPage, nPages, lo, hi) by {
      if i != hi {
        assert PageItems(curPage, nPages, lo, hi) == [];
      }
    }
  }

  lemma AfterCases(before: seq<Item>, curPage: int, nPages: int, offset: int)
    ensures curPage + offset < nPages && curPage != nPages ==>
              before + After(curPage, nPages, offset) == before + [Ellipsis] + [Next(curPage + 1)] + [Last]
    ensures curPage + offset < nPages && curPage == nPages ==>
              before + After(curPage, nPages, offset) == before + [Ellipsis]
    ensures curPage + offset >= nPages && curPage != nPages ==>
              before + After(curPage, nPages, offset) == before + [Next(curPage + 1)] + [Last]
    ensures curPage + offset >= nPages && curPage == nPages ==>
              before + After(curPage, nPages, offset) == before
  {
    var after := After(curPage, nPages, offset);
    if curPage + offset < nPages && curPage != nPages {
      assert after == [Ellipsis, Next(curPage + 1), Last];
    } else if curPage + offset < nPages {
      assert after == [Ellipsis];
    } else if curPage != nPages {
      assert after == [Next(curPage + 1), Last];
    } else {
      assert after == [];
    }
  }

  /** The last part of `paginate`: the trailing ellipsis, then the next and last links. */
  method EmitAfter(curPage: int, nPages: int, offset: int, url: string, html: string, ghost before: seq<Item>)
    returns (longer: string)
    requires html == OPEN_LIST + Join(Renderer(url), before)
    ensures longer == OPEN_LIST + Join(Renderer(url), before + After(curPage, nPages, offset))
  {
    AfterCases(before, curPage, nPages, offset);
    longer := html;
    ghost var shown := before;
    if curPage + offset < nPages {
      longer := Emit(url, longer, shown, Ellipsis);
      shown := shown + [Ellipsis];
    }
    if curPage != nPages {
      longer := Emit(url, longer, shown, Next(curPage + 1));
      shown := shown + [Next(curPage + 1)];
      longer := Emit(url, longer, shown, Last);
      shown := shown + [Last];
    }
  }

  /** `paginate`: builds the widget by appending to a string, item by item. */
  method Paginate(curPage: int, nPages: int, offset: int, url: string) returns (html: string)
    ensures html == PaginationHtml(curPage, nPages, offset, url)
  {
    if nPages < 2 {
      return "";
    }
    var result := EmitBefore(curPage, offset, url);
    result := EmitPages(curPage, nPages, offset, url, result, Before(curPage, offset));
    result := EmitAfter(curPage, nPages, offset, url, result,
                        Before(curPage, offset) + PageItems(curPage, nPages, curPage - offset, curPage + offset + 1));
    CloseList(curPage, nPages, offset, url, result);
    html := result + "</ul>";
  }

  /** The numbered links cover exactly the existing pages `lo <= i < hi`, in ascending
      order, and a link is active exactly when it is the current page. */
  lemma {:induction false} PageItemsExact(curPage: int, nPages: int, lo: int, hi: int)
    ensures forall it :: it in PageItems(curPage, nPages, lo, hi) ==>
              it.PageLink? && lo <= it.page < hi && 1 <= it.page <= nPages && (it.active <==> it.page == curPage)
    ensures forall p, active :: PageLink(p, active) in PageItems(curPage, nPages, lo, hi) <==>
              lo <= p < hi && 1 <= p <= nPages && (active <==> p == curPage)
    ensures forall j, k :: 0 <= j < k < |PageItems(curPage, nPages, lo, hi)| ==>
              PageItems(curPage, nPages, lo, hi)[j].page < PageItems(curPage, nPages, lo, hi)[k].page
    decreases hi - lo
  {
    if hi > lo {
      PageItemsExact(curPage, nPages, lo, hi - 1);
    }
  }

  lemma BeforeFacts(curPage: int, offset: int)
    ensures forall it :: it in Before(curPage, offset) ==> !it.PageLink? && it != Last && !it.Next?
    ensures First in Before(curPage, offset) <==> curPage > 1
    ensures Prev(curPage - 1) in Before(curPage, offset) <==> curPage > 1
  {
  }

  lemma AfterFacts(curPage: int, nPages: int, offset: int)
    ensures forall it :: it in After(curPage, nPages, offset) ==> !it.PageLink? && it != First && !it.Prev?
    ensures Next(curPage + 1) in After(curPage, nPages, offset) <==> curPage != nPages
    ensures Last in After(curPage, nPages, offset) <==> curPage != nPages
  {
  }

  /** Where a numbered link of the widget sits: among the numbered links, after the leading items. */
  lemma LinkIndex(curPage: int, nPages: int, offset: int, j: int)
    requires 0 <= j < |Items(curPage, nPages, offset)| && Items(curPage, nPages, offset)[j].PageLink?
    ensures |Before(curPage, offset)| <= j < |Before(curPage, offset)| + |PageItems(curPage, nPages, curPage - offset, curPage + offset + 1)|
    ensures Items(curPage, nPages, offset)[j] == PageItems(curPage, nPages, curPage - offset, curPage + offset + 1)[j - |Before(curPage, offset)|]
  {
    var before, pages, after := Before(curPage, offset), PageItems(curPage, nPages, curPage - offset, curPage + offset + 1), After(curPage, nPages, offset);
    var items := Items(curPage, nPages, offset);
    if j < |before| {
      assert items[j] == before[j];
      assert before[j] in before;
      BeforeFacts(curPage, offset);
    } else if j >= |before| + |pages| {
      assert items[j] == after[j - |before| - |pages|];
      assert after[j - |before| - |pages|] in after;
      AfterFacts(curPage, nPages, offset);
    }
  }

  /** The numbered links of the widget are exactly the pages `curPage-offset ..
      curPage+offset` that lie in `1 .. nPages`, and only the current page is active. */
  lemma PaginationPages(curPage: int, nPages: int, offset: int)
    ensures forall p, active :: PageLink(p, active) in Items(curPage, nPages, offset) <==>
              curPage - offset <= p <= curPage + offset && 1 <= p <= nPages && (active <==> p == curPage)
  {
    forall p, active
      ensures PageLink(p, active) in Items(curPage, nPages, offset) <==>
              curPage - offset <= p <= curPage + offset && 1 <= p <= nPages && (active <==> p == curPage)
    {
      ItemsMember(curPage, nPages, offset, PageLink(p, active));
      assert PageLink(p, active) !in Before(curPage, offset) by { BeforeFacts(curPage, offset); }
      assert PageLink(p, active) !in After(curPage, nPages, offset) by { AfterFacts(curPage, nPages, offset); }
      PageItemsExact(curPage, nPages, curPage - offset, curPage + offset + 1);
    }
  }

  /** The numbered links appear in ascending page order. */
  lemma PaginationAscending(curPage: int, nPages: int, offset: int)
    ensures forall j, k ::
              (0 <= j < k < |Items(curPage, nPages, offset)|
               && Items(curPage, nPages, offset)[j].PageLink? && Items(curPage, nPages, offset)[k].PageLink?) ==>
              Items(curPage, nPages, offset)[j].page < Items(curPage, nPages, offset)[k].page
  {
    var items := Items(curPage, nPages, offset);
    forall j, k | 0 <= j < k < |items| && items[j].PageLink? && items[k].PageLink?
      ensures items[j].page < items[k].page
    {
      LinkIndex(curPage, nPages, offset, j);
      LinkIndex(curPage, nPages, offset, k);
      PageItemsExact(curPage, nPages, curPage - offset, curPage + offset + 1);
    }
  }

  lemma ItemsMember(curPage: int, nPages: int, offset: int, it: Item)
    ensures it in Items(curPage, nPages, offset) <==>
              it in Before(curPage, offset)
              || it in PageItems(curPage, nPages, curPage - offset, curPage + offset + 1)
              || it in After(curPage, nPages, offset)
  {
  }

  lemma NavFirst(curPage: int, nPages: int, offset: int)
    ensures First in Items(curPage, nPages, offset) <==> curPage > 1
  {
    ItemsMember(curPage, nPages, offset, First);
    assert First !in PageItems(curPage, nPages, curPage - offset, curPage + offset + 1) by {
      PageItemsExact(curPage, nPages, curPage - offset, curPage + offset + 1);
    }
  }

  lemma NavPrev(curPage: int, nPages: int, offset: int)
    ensures Prev(curPage - 1) in Items(curPage, nPages, offset) <==> curPage > 1
  {
    ItemsMember(curPage, nPages, offset, Prev(curPage - 1));
    assert Prev(curPage - 1) !in PageItems(curPage, nPages, curPage - offset, curPage + offset + 1) by {
      PageItemsExact(curPage, nPages, curPage - offset, curPage + offset + 1);
    }
  }

  lemma NavNext(curPage: int, nPages: int, offset: int)
    ensures Next(curPage + 1) in Items(curPage, nPages, offset) <==> curPage != nPages
  {
    ItemsMember(curPage, nPages, offset, Next(curPage + 1));
    assert Next(curPage + 1) !in PageItems(curPage, nPages, curPage - offset, curPage + offset + 1) by {
      PageItemsExact(curPage, nPages, curPage - offset, curPage + offset + 1);
    }
  }

  lemma NavLast(curPage: int, nPages: int, offset: int)
    ensures Last in Items(curPage, nPages, offset) <==> curPage != nPages
  {
    ItemsMember(curPage, nPages, offset, Last);
    assert Last !in PageItems(curPage, nPages, curPage - offset, curPage + offset + 1) by {
      PageItemsExact(curPage, nPages, curPage - offset, curPage + offset + 1);
    }
  }

  /** How often `x` occurs in `s`. */
  function Count<T(==)>(s: seq<T>, x: T): nat
  {
    if s == [] then 0 else Count(s[..|s| - 1], x) + (if s[|s| - 1] == x then 1 else 0)
  }

  lemma {:induction false} CountAppend<T>(a: seq<T>, b: seq<T>, x: T)
    ensures Count(a + b, x) == Count(a, x) + Count(b, x)
    decreases |b|
  {
    if b == [] {
      assert a + b == a;
    } else {
      assert (a + b)[..|a + b| - 1] == a + b[..|b| - 1];
      CountAppend(a, b[..|b| - 1], x);
    }
  }

  lemma {:induction false} CountAbsent<T>(s: seq<T>, x: T)
    requires x !in s
    ensures Count(s, x) == 0
  {
    if s != [] {
      assert forall y :: y in s[..|s| - 1] ==> y in s;
      CountAbsent(s[..|s| - 1], x);
    }
  }

  lemma BeforeEllipses(curPage: int, offset: int)
    ensures Count(Before(curPage, offset), Ellipsis) == if curPage - offset > 1 then 1 else 0
  {
    var nav: seq<Item> := if curPage > 1 then [First, Prev(curPage - 1)] else [];
    var dots: seq<Item> := if curPage - offset > 1 then [Ellipsis] else [];
    CountAppend(nav, dots, Ellipsis);
    CountAbsent(nav, Ellipsis);
  }

  lemma AfterEllipses(curPage: int, nPages: int, offset: int)
    ensures Count(After(curPage, nPages, offset), Ellipsis) == if curPage + offset < nPages then 1 else 0
  {
    var dots: seq<Item> := if curPage + offset < nPages then [Ellipsis] else [];
    var nav: seq<Item> := if curPage != nPages then [Next(curPage + 1), Last] else [];
    CountAppend(dots, nav, Ellipsis);
    CountAbsent(nav, Ellipsis);
  }

  /** One ellipsis stands for each side the window does not reach. */
  lemma NavEllipsis(curPage: int, nPages: int, offset: int)
    ensures Count(Items(curPage, nPages, offset), Ellipsis)
            == (if curPage - offset > 1 then 1 else 0) + (if curPage + offset < nPages then 1 else 0)
  {
    var before, pages, after := Before(curPage, offset), PageItems(curPage, nPages, curPage - offset, curPage + offset + 1), After(curPage, nPages, offset);
    CountAppend(before + pages, after, Ellipsis);
    CountAppend(before, pages, Ellipsis);
    assert Ellipsis !in pages by {
      PageItemsExact(curPage, nPages, curPage - offset, curPage + offset + 1);
    }
    CountAbsent(pages, Ellipsis);
    BeforeEllipses(curPage, offset);
    AfterEllipses(curPage, nPages, offset);
  }

  /** First/previous appear exactly when there is an earlier page, next/last exactly
      when this is not the last page, and one ellipsis stands for each side the window
      does not reach. */
  lemma PaginationNavigation(curPage: int, nPages: int, offset: int)
    ensures First in Items(curPage, nPages, offset) <==> curPage > 1
    ensures Prev(curPage - 1) in Items(curPage, nPages, offset) <==> curPage > 1
    ensures Next(curPage + 1) in Items(curPage, nPages, offset) <==> curPage != nPages
    ensures Last in Items(curPage, nPages, offset) <==> curPage != nPages
    ensures Count(Items(curPage, nPages, offset), Ellipsis)
            == (if curPage - offset > 1 then 1 else 0) + (if curPage + offset < nPages then 1 else 0)
  {
    NavFirst(curPage, nPages, offset);
    NavPrev(curPage, nPages, offset);
    NavNext(curPage, nPages, offset);
    NavLast(curPage, nPages, offset);
    NavEllipsis(curPage, nPages, offset);
  }

  /** The window of `paginate(3, 10, 1, url)`. */
  lemma PaginationExample()
    ensures Items(3, 10, 1)
         == [First, Prev(2), Ellipsis, PageLink(2, false), PageLink(3, true), PageLink(4, false), Ellipsis, Next(4), Last]
  {
    assert PageItems(3, 10, 2, 5) == [PageLink(2, false), PageLink(3, true), PageLink(4, false)] by {
      assert PageItems(3, 10, 2, 2) == [];
      assert PageItems(3, 10, 2, 3) == [PageLink(2, false)];
      assert PageItems(3, 10, 2, 4) == [PageLink(2, false), PageLink(3, true)];
    }
  }

  // ---------------------------------------------------------------------------
  // array and set

  /** `array`: collects its arguments, in order. */
  method Array<T>(args: seq<T>) returns (ret: seq<T>)
    ensures ret == args
  {
    ret := [];
    for i := 0 to |args|
      invariant ret == args[..i]
    {
      ret := ret + [args[i]];
    }
    assert args[..|args|] == args;
  }

  /** An opaque template argument value. */
  datatype Value = Value(tag: nat)

  /** A template's argument map, shared by reference with whoever holds it. */
  class ArgMap {
    var entries: map<string, Value>

    constructor (entries: map<string, Value>)
      ensures this.entries == entries
    {
      this.entries := entries;
    }
  }

  /** `set`: stores `value` under `key` in the caller's map, unless it is nil; prints nothing. */
  method Set(args: ArgMap?, key: string, value: Value) returns (r: string)
    modifies args
    ensures r == ""
    ensures args != null ==> args.entries == old(args.entries)[key := value]
  {
    if args != null {
      args.entries := args.entries[key := value];
    }
    return "";
  }
}
