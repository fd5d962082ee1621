/**
 * Back/forward navigation of BrowserSession.cs. Each stack is a sequence
 * whose last element is the top. The transitions are first stated on a
 * value `Nav` (the three fields together); the class's methods are proved to
 * perform exactly those transitions on its fields.
 */
module Browser {
  import opened Wrappers

  datatype WebPage = WebPage(url: string, title: string)

  /** The navigation state: back stack, forward stack and current page. */
  datatype Nav = Nav(back: seq<WebPage>, forward: seq<WebPage>, current: Option<WebPage>)

  /** Whenever there is history, there is a current page. */
  predicate Inv(n: Nav) {
    (n.back != [] || n.forward != []) ==> n.current.Some?
  }

  /** All pages the session holds: both stacks and the current page. */
  function Pages(n: Nav): nat {
    |n.back| + |n.forward| + (if n.current.Some? then 1 else 0)
  }

  /** VisitUrl: the old current page (if any) is pushed on back, forward is emptied, the new page is current. */
  function Visit(n: Nav, page: WebPage): (r: Nav)
    ensures r.current == Some(page) && r.forward == []
    ensures n.current.Some? ==> r.back == n.back + [n.current.value]
    ensures n.current.None? ==> r.back == n.back
    ensures Inv(r)
  {
    Nav(if n.current.Some? then n.back + [n.current.value] else n.back, [], Some(page))
  }

  /**
   * GoBack: refused, with nothing changed, when the back stack is empty;
   * otherwise the current page goes onto forward and back's top becomes
   * current. On a session satisfying Inv it keeps Inv and the page count.
   */
  function Back(n: Nav): (r: (Nav, bool))
    ensures r.1 <==> n.back != []
    ensures !r.1 ==> r.0 == n
    ensures r.1 ==> r.0.current == Some(n.back[|n.back| - 1]) && r.0.back == n.back[..|n.back| - 1]
    ensures Inv(n) ==> Inv(r.0) && Pages(r.0) == Pages(n)
  {
    if n.back == [] then (n, false)
    else
      var forward := if n.current.Some? then n.forward + [n.current.value] else n.forward;
      (Nav(n.back[..|n.back| - 1], forward, Some(n.back[|n.back| - 1])), true)
  }

  /** GoForward: the mirror image of Back. */
  function Forward(n: Nav): (r: (Nav, bool))
    ensures r.1 <==> n.forward != []
    ensures !r.1 ==> r.0 == n
    ensures r.1 ==> r.0.current == Some(n.forward[|n.forward| - 1]) && r.0.forward == n.forward[..|n.forward| - 1]
    ensures Inv(n) ==> Inv(r.0) && Pages(r.0) == Pages(n)
  {
    if n.forward == [] then (n, false)
    else
      var back := if n.current.Some? then n.back + [n.current.value] else n.back;
      (Nav(back, n.forward[..|n.forward| - 1], Some(n.forward[|n.forward| - 1])), true)
  }

  /** ClearHistory: both stacks emptied, current page kept, the number of removed pages reported. */
  function Clear(n: Nav): (r: (Nav, int))
    ensures r.0.back == [] && r.0.forward == [] && r.0.current == n.current
    ensures r.1 == |n.back| + |n.forward|
    ensures Inv(r.0)
    ensures Inv(n) ==> Pages(r.0) == Pages(n) - r.1
  {
    (Nav([], [], n.current), |n.back| + |n.forward|)
  }

  /** Going back and then forward restores the whole state. */
  lemma BackThenForward(n: Nav)
    requires Inv(n) && n.back != []
    ensures Back(n).1 && Forward(Back(n).0) == (n, true)
  {
    var m := Back(n).0;
    assert m.forward[..|m.forward| - 1] == n.forward;
    assert m.back + [m.current.value] == n.back;
  }

  /** Going forward and then back restores the whole state. */
  lemma ForwardThenBack(n: Nav)
    requires Inv(n) && n.forward != []
    ensures Forward(n).1 && Back(Forward(n).0) == (n, true)
  {
    var m := Forward(n).0;
    assert m.back[..|m.back| - 1] == n.back;
    assert m.forward + [m.current.value] == n.forward;
  }

  class BrowserSession {
    var backStack: seq<WebPage>
    var forwardStack: seq<WebPage>
    var currentPage: Option<WebPage>

    function State(): Nav
      reads this
    {
      Nav(backStack, forwardStack, currentPage)
    }

    ghost predicate Valid()
      reads this
    {
      Inv(State())
    }

    constructor ()
      ensures Valid()
      ensures State() == Nav([], [], None)
    {
      backStack := [];
      forwardStack := [];
      currentPage := None;
    }

    function BackHistoryCount(): (r: nat)
      reads this
      ensures r == |State().back|
    {
      |backStack|
    }

    function ForwardHistoryCount(): (r: nat)
      reads this
      ensures r == |State().forward|
    {
      |forwardStack|
    }

    /** CanGoBack: exactly when GoBack would move. */
    function CanGoBack(): (r: bool)
      reads this
      ensures r <==> Back(State()).1
    {
      |backStack| > 0
    }

    /** CanGoForward: exactly when GoForward would move. */
    function CanGoForward(): (r: bool)
      reads this
      ensures r <==> Forward(State()).1
    {
      |forwardStack| > 0
    }

    method VisitUrl(url: string, title: string)
      modifies this
      ensures State() == Visit(old(State()), WebPage(url, title))
      ensures Valid()
    {
      if currentPage.Some? {
        backStack := backStack + [currentPage.value];
      }
      forwardStack := [];
      currentPage := Some(WebPage(url, title));
    }

    method GoBack() returns (moved: bool)
      modifies this
      ensures (State(), moved) == Back(old(State()))
      ensures old(Valid()) ==> Valid()
    {
      if |backStack| == 0 {
        return false;
      }
      if currentPage.Some? {
        forwardStack := forwardStack + [currentPage.value];
      }
      currentPage := Some(backStack[|backStack| - 1]);
      backStack := backStack[..|backStack| - 1];
      return true;
    }

    method GoForward() returns (moved: bool)
      modifies this
      ensures (State(), moved) == Forward(old(State()))
      ensures old(Valid()) ==> Valid()
    {
      if |forwardStack| == 0 {
        return false;
      }
      if currentPage.Some? {
        backStack := backStack + [currentPage.value];
      }
      currentPage := Some(forwardStack[|forwardStack| - 1]);
      forwardStack := forwardStack[..|forwardStack| - 1];
      return true;
    }

    /** ClearHistory: returns the count the source prints. */
    method ClearHistory() returns (totalCleared: int)
      modifies this
      ensures (State(), totalCleared) == Clear(old(State()))
      ensures Valid()
    {
      totalCleared := |backStack| + |forwardStack|;
      backStack := [];
      forwardStack := [];
    }
  }
}
