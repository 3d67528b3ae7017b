/** The current directory script, `js/main.js`: sport matching by explicit
    field with a fallback to the collection a club was loaded from, guards for
    missing fields, at least one page, and the closure state `allClubs`,
    `footballClubs`, `cricketClubs`, `lastClubsFiltered` and `currentPage`
    that the fetch callbacks and the click handlers update. */
module ClubDirectory {
  import opened Wrappers
  import opened Text
  import opened Sequences
  import opened Clubs
  import opened Paging

  /** The two per-sport clubs collections the script fetches. */
  datatype Collection = Football | Cricket

  function OriginOf(c: Collection): Origin {
    match c
    case Football => FootballCollection
    case Cricket => CricketCollection
  }

  /** The clubs of one collection, each tagged with where it came from: every
      club keeps its position and its fields, and now carries origin `o`. */
  function Tagged(clubs: seq<Club>, o: Origin): (r: seq<Club>)
    ensures |r| == |clubs|
    ensures forall c :: c in r ==> c.origin == o
    ensures forall i :: 0 <= i < |r| ==> r[i].(origin := clubs[i].origin) == clubs[i]
  {
    seq(|clubs|, i requires 0 <= i < |clubs| => clubs[i].(origin := o))
  }

  /** `club.sport || club.sport_name || ''`. */
  function SportName(c: Club): string {
    OrElse(c.sport, OrElse(c.sportName, ""))
  }

  /** The explicit sport name is empty exactly when neither field is truthy;
      otherwise it is one of them, `sport` taking precedence. */
  lemma SportNameSpec(c: Club)
    ensures SportName(c) == "" <==> !Truthy(c.sport) && !Truthy(c.sportName)
    ensures SportName(c) != "" ==> Some(SportName(c)) == c.sport || Some(SportName(c)) == c.sportName
    ensures Truthy(c.sport) ==> SportName(c) == c.sport.value
  {
  }

  /** The sport test of both the filter and the search handler: an empty sport
      matches everything; otherwise the explicit sport name must equal it, or
      the sport is football/cricket in any case and the club came from that
      collection. */
  predicate SportMatches(c: Club, sport: string) {
    || sport == ""
    || SportName(c) == sport
    || (Lower(sport) == "football" && c.origin == FootballCollection)
    || (Lower(sport) == "cricket" && c.origin == CricketCollection)
  }

  /** The per-club test of `filterAndRenderClubs`. */
  predicate Matches(c: Club, sel: Selection) {
    && SportMatches(c, sel.sport)
    && FieldMatches(sel.league, c.league)
    && FieldMatches(sel.location, c.location)
    && FieldMatches(sel.ageGroup, c.ageGroup)
  }

  function MatchesFn(sel: Selection): Club -> bool {
    c => Matches(c, sel)
  }

  /** `filterAndRenderClubs`: the clubs passing the sport and drop-down tests. */
  function Filter(all: seq<Club>, sel: Selection): seq<Club> {
    Keep(all, MatchesFn(sel))
  }

  /** The filter result is an in-order subsequence of all clubs holding each
      club that passes the tests as often as it occurs there, and no other. */
  lemma FilterSpec(all: seq<Club>, sel: Selection)
    ensures IsSubseq(Filter(all, sel), all)
    ensures forall c :: c in Filter(all, sel) <==> c in all && Matches(c, sel)
    ensures forall c :: multiset(Filter(all, sel))[c] == if Matches(c, sel) then multiset(all)[c] else 0
  {
    KeepSpec(all, MatchesFn(sel));
  }

  /** `(club.name || '').toString().toLowerCase()`. */
  function NameText(c: Club): string {
    Lower(OrElse(c.name, ""))
  }

  /** `(club.location || '').toString().toLowerCase()`. */
  function LocationText(c: Club): string {
    Lower(OrElse(c.location, ""))
  }

  /** The search test: an empty query matches; otherwise the lower-cased name
      or location, an absent one read as "", must contain the query. */
  predicate SearchMatches(c: Club, query: string) {
    || query == ""
    || Contains(NameText(c), query)
    || Contains(LocationText(c), query)
  }

  predicate SearchKeeps(c: Club, sel: Selection, query: string) {
    SearchMatches(c, query) && Matches(c, sel)
  }

  function SearchFn(sel: Selection, query: string): Club -> bool {
    c => SearchKeeps(c, sel, query)
  }

  /** The search-submit handler's result for an already normalised query. */
  function Search(all: seq<Club>, sel: Selection, query: string): seq<Club> {
    Keep(all, SearchFn(sel, query))
  }

  /** The search result is an in-order subsequence of all clubs holding each
      club that matches the query and passes the filter tests as often as it
      occurs there, and no other. */
  lemma SearchSpec(all: seq<Club>, sel: Selection, query: string)
    ensures IsSubseq(Search(all, sel, query), all)
    ensures forall c :: c in Search(all, sel, query) <==> c in all && SearchMatches(c, query) && Matches(c, sel)
    ensures forall c :: multiset(Search(all, sel, query))[c] == if SearchKeeps(c, sel, query) then multiset(all)[c] else 0
  {
    KeepSpec(all, SearchFn(sel, query));
  }

  /** A non-empty query matches exactly the clubs whose lower-cased name or
      location has it as a substring; a club with neither never matches. */
  lemma SearchMatchesIff(c: Club, query: string)
    requires query != ""
    ensures SearchMatches(c, query) <==>
      || (exists i :: OccursAt(NameText(c), query, i))
      || (exists i :: OccursAt(LocationText(c), query, i))
    ensures c.name.None? && c.location.None? ==> !SearchMatches(c, query)
  {
    ContainsIffOccurs(NameText(c), query);
    ContainsIffOccurs(LocationText(c), query);
  }

  /** Submitting an empty (or all-whitespace) search box gives the filter result. */
  lemma EmptySearchIsFilter(all: seq<Club>, sel: Selection, raw: string)
    requires forall i :: 0 <= i < |raw| ==> IsTrimmable(raw[i])
    ensures Search(all, sel, NormalizeQuery(raw)) == Filter(all, sel)
  {
    KeepAgrees(all, SearchFn(sel, NormalizeQuery(raw)), MatchesFn(sel));
  }

  predicate NamesSport(c: Club, sport: string) {
    SportName(c) == sport
  }

  function NamesSportFn(sport: string): Club -> bool {
    c => NamesSport(c, sport)
  }

  /** The clubs `updateFiltersForSport` derives the drop-downs from: those whose
      explicit sport name equals the sport (all clubs for the empty sport); only
      when there are none, and the sport is football or cricket in any case,
      that whole collection. */
  function FacetScope(all: seq<Club>, football: seq<Club>, cricket: seq<Club>, sport: string): seq<Club> {
    var scoped := if sport != "" then Keep(all, NamesSportFn(sport)) else all;
    if |scoped| == 0 && Lower(sport) == "football" then football
    else if |scoped| == 0 && Lower(sport) == "cricket" then cricket
    else scoped
  }

  /** The three cases of the facet scope. The collection fallback is taken only
      when no club at all names the sport, unlike the filter, which consults the
      collection club by club. */
  lemma FacetScopeCases(all: seq<Club>, football: seq<Club>, cricket: seq<Club>, sport: string)
    ensures sport == "" ==> FacetScope(all, football, cricket, sport) == all
    ensures sport != "" && (exists c :: c in all && NamesSport(c, sport)) ==>
      FacetScope(all, football, cricket, sport) == Keep(all, NamesSportFn(sport))
    ensures sport != "" && (forall c :: c in all ==> !NamesSport(c, sport)) ==>
      FacetScope(all, football, cricket, sport) ==
        if Lower(sport) == "football" then football
        else if Lower(sport) == "cricket" then cricket
        else []
  {
    var scoped := Keep(all, NamesSportFn(sport));
    if sport != "" && (exists c :: c in all && NamesSport(c, sport)) {
      var c :| c in all && NamesSport(c, sport);
      assert c in scoped;
    }
  }

  /** The facets of a sport tab. */
  function SportFacets(all: seq<Club>, football: seq<Club>, cricket: seq<Club>, sport: string): Facets {
    FacetsOf(FacetScope(all, football, cricket, sport))
  }

  /** A club with no sport field from the cricket collection is shown under a
      Cricket tab (any case) and not under a Football tab. */
  lemma ProvenanceFallback(c: Club)
    requires !Truthy(c.sport) && !Truthy(c.sportName) && c.origin == CricketCollection
    ensures SportMatches(c, "Cricket") && SportMatches(c, "CRICKET")
    ensures !SportMatches(c, "Football")
  {
    LowerCricket();
    LowerFootball();
  }

  lemma LowerCricket()
    ensures Lower("Cricket") == "cricket" && Lower("CRICKET") == "cricket"
  {
  }

  lemma LowerFootball()
    ensures Lower("Football") == "football"
  {
  }

  /** The facet fallback and the filter disagree: a football club without an
      explicit sport is shown under the Football tab, but its league is not
      offered, because another club names the sport explicitly. */
  lemma FacetsCanOmitShownLeague()
    ensures var named := Club(Some("A"), Some("Football"), None, Some("Premier"), None, None, FootballCollection);
      var unnamed := Club(Some("B"), None, None, Some("Sunday"), None, None, FootballCollection);
      && unnamed in Filter([named, unnamed], Selection("Football", "", "", ""))
      && "Sunday" !in SportFacets([named, unnamed], [named, unnamed], [], "Football").leagues
  {
    var named := Club(Some("A"), Some("Football"), None, Some("Premier"), None, None, FootballCollection);
    var unnamed := Club(Some("B"), None, None, Some("Sunday"), None, None, FootballCollection);
    var all := [named, unnamed];
    LowerFootball();
    assert Matches(unnamed, Selection("Football", "", "", ""));
    assert MatchesFn(Selection("Football", "", "", ""))(unnamed);
    var p := NamesSportFn("Football");
    var scope := Keep(all, p);
    assert p(named);
    assert named in scope;
    assert FacetScope(all, all, [], "Football") == scope;
    assert forall c :: c in scope ==> c == named;
  }

  /** `Math.max(1, Math.ceil(n / 20))`: the page count, never 0. */
  function TotalPages(n: nat): (t: nat)
    ensures t >= 1
    ensures n <= t * PageSize
    ensures t > 1 ==> (t - 1) * PageSize < n
  {
    if CeilPages(n) < 1 then 1 else CeilPages(n)
  }

  lemma TotalPagesMonotone(m: nat, n: nat)
    requires m <= n
    ensures TotalPages(m) <= TotalPages(n)
  {
    CeilPagesMonotone(m, n);
  }

  /** A tab name that selects the football tab by default. */
  predicate IsFootball(name: string) {
    Lower(name) == "football"
  }

  function FirstFootball(names: seq<string>): (r: Option<string>)
    ensures r.Some? ==> r.value in names && IsFootball(r.value)
    ensures r.None? ==> forall j :: 0 <= j < |names| ==> !IsFootball(names[j])
  {
    if names == [] then None
    else if IsFootball(names[0]) then Some(names[0])
    else FirstFootball(names[1..])
  }

  /** The default tab: the first sport named football in any case, else the
      first sport, else none. */
  function DefaultTab(names: seq<string>): (r: Option<string>)
    ensures r.None? <==> names == []
    ensures r.Some? ==> r.value in names
  {
    match FirstFootball(names)
    case Some(s) => Some(s)
    case None => if names == [] then None else Some(names[0])
  }

  lemma {:induction false} DefaultTabPrefersFirstFootball(names: seq<string>, k: nat)
    requires k < |names| && IsFootball(names[k])
    requires forall j :: 0 <= j < k ==> !IsFootball(names[j])
    ensures DefaultTab(names) == Some(names[k])
  {
    if k > 0 {
      DefaultTabPrefersFirstFootball(names[1..], k - 1);
    }
  }

  lemma DefaultTabWithoutFootball(names: seq<string>)
    requires names != []
    requires forall j :: 0 <= j < |names| ==> !IsFootball(names[j])
    ensures DefaultTab(names) == Some(names[0])
  {
  }

  /** The closure state of the script and the handlers that update it. */
  class Directory {
    var allClubs: seq<Club>
    var footballClubs: seq<Club>
    var cricketClubs: seq<Club>
    var lastClubsFiltered: seq<Club>
    var currentPage: int

    /** The current page is a real page of the shown list, and the shown list
        is drawn from all clubs. */
    ghost predicate Valid()
      reads this
    {
      && 1 <= currentPage <= TotalPages(|lastClubsFiltered|)
      && IsSubseq(lastClubsFiltered, allClubs)
    }

    constructor ()
      ensures Valid()
      ensures allClubs == [] && footballClubs == [] && cricketClubs == []
      ensures lastClubsFiltered == [] && currentPage == 1
    {
      allClubs, footballClubs, cricketClubs := [], [], [];
      lastClubsFiltered, currentPage := [], 1;
    }

    /** A clubs collection arrives (`null` decodes to no clubs): it is appended
        to all clubs, the age groups are recomputed over all clubs, and every
        club is shown again on the same page number. */
    method LoadClubs(collection: Collection, decoded: Option<seq<Club>>) returns (ageGroups: seq<string>)
      requires Valid()
      modifies this
      ensures Valid()
      ensures var clubs := Tagged(decoded.GetOr([]), OriginOf(collection));
        && allClubs == old(allClubs) + clubs
        && footballClubs == (if collection == Football then clubs else old(footballClubs))
        && cricketClubs == (if collection == Cricket then clubs else old(cricketClubs))
      ensures lastClubsFiltered == allClubs
      ensures currentPage == old(currentPage)
      ensures ageGroups == Facet(allClubs, AgeGroup)
    {
      var clubs := Tagged(decoded.GetOr([]), OriginOf(collection));
      if collection == Football {
        footballClubs := clubs;
      } else {
        cricketClubs := clubs;
      }
      SubseqLength(lastClubsFiltered, allClubs);
      TotalPagesMonotone(|lastClubsFiltered|, |allClubs + clubs|);
      allClubs := allClubs + clubs;
      ageGroups := Facet(allClubs, AgeGroup);
      lastClubsFiltered := allClubs;
      SubseqRefl(allClubs);
    }

    /** `filterAndRenderClubs`: the filtered clubs become the shown list, from page 1. */
    method ApplyFilter(sel: Selection)
      requires Valid()
      modifies this`lastClubsFiltered, this`currentPage
      ensures Valid()
      ensures lastClubsFiltered == Filter(allClubs, sel)
      ensures currentPage == 1
    {
      FilterSpec(allClubs, sel);
      lastClubsFiltered := Filter(allClubs, sel);
      currentPage := 1;
    }

    /** The search-submit handler, given the raw search box value. */
    method ApplySearch(raw: string, sel: Selection)
      requires Valid()
      modifies this`lastClubsFiltered, this`currentPage
      ensures Valid()
      ensures lastClubsFiltered == Search(allClubs, sel, NormalizeQuery(raw))
      ensures currentPage == 1
    {
      var query := NormalizeQuery(raw);
      SearchSpec(allClubs, sel, query);
      lastClubsFiltered := Search(allClubs, sel, query);
      currentPage := 1;
    }

    /** A sport tab click: the drop-downs are rebuilt from the sport's facets
        (which resets them to "all"), then the clubs are filtered from page 1. */
    method SelectSport(sport: string) returns (facets: Facets)
      requires Valid()
      modifies this`lastClubsFiltered, this`currentPage
      ensures Valid()
      ensures facets == SportFacets(allClubs, footballClubs, cricketClubs, sport)
      ensures lastClubsFiltered == Filter(allClubs, Selection(sport, "", "", ""))
      ensures currentPage == 1
    {
      facets := SportFacets(allClubs, footballClubs, cricketClubs, sport);
      ApplyFilter(Selection(sport, "", "", ""));
    }

    /** The sports collection arrives: the default tab, if any, is selected as
        if clicked. */
    method LoadSports(decoded: Option<seq<string>>) returns (selected: Option<string>, facets: Option<Facets>)
      requires Valid()
      modifies this`lastClubsFiltered, this`currentPage
      ensures Valid()
      ensures selected == DefaultTab(decoded.GetOr([]))
      ensures selected.None? ==> facets.None? && lastClubsFiltered == old(lastClubsFiltered) && currentPage == old(currentPage)
      ensures selected.Some? ==>
        && facets == Some(SportFacets(allClubs, footballClubs, cricketClubs, selected.value))
        && lastClubsFiltered == Filter(allClubs, Selection(selected.value, "", "", ""))
        && currentPage == 1
    {
      selected := DefaultTab(decoded.GetOr([]));
      facets := None;
      if selected.Some? {
        var f := SelectSport(selected.value);
        facets := Some(f);
      }
    }

    /** The Prev button, which exists only past page 1. */
    method Prev()
      requires Valid()
      requires PrevButton in Controls(TotalPages(|lastClubsFiltered|), currentPage)
      modifies this`currentPage
      ensures Valid()
      ensures currentPage == old(currentPage) - 1
    {
      TargetInRange(TotalPages(|lastClubsFiltered|), currentPage, PrevButton);
      currentPage := currentPage - 1;
    }

    /** The Next button, which exists only before the last page. */
    method Next()
      requires Valid()
      requires NextButton in Controls(TotalPages(|lastClubsFiltered|), currentPage)
      modifies this`currentPage
      ensures Valid()
      ensures currentPage == old(currentPage) + 1
    {
      TargetInRange(TotalPages(|lastClubsFiltered|), currentPage, NextButton);
      currentPage := currentPage + 1;
    }

    /** A page button; the current page's button is disabled and cannot be clicked. */
    method GoTo(i: int)
      requires Valid()
      requires PageButton(i, false) in Controls(TotalPages(|lastClubsFiltered|), currentPage)
      modifies this`currentPage
      ensures Valid()
      ensures currentPage == i
    {
      TargetInRange(TotalPages(|lastClubsFiltered|), currentPage, PageButton(i, false));
      currentPage := i;
    }

    /** `renderClubs(lastClubsFiltered)`: the clubs of the current page, the page
        count and the pagination controls. In a valid state the page is empty
        only when nothing matched. */
    method Render() returns (shown: seq<Club>, totalPages: int, controls: seq<Control>)
      requires Valid()
      ensures totalPages == TotalPages(|lastClubsFiltered|)
      ensures shown == PageSlice(lastClubsFiltered, currentPage)
      ensures controls == Controls(totalPages, currentPage)
      ensures |shown| <= PageSize
      ensures shown == [] <==> lastClubsFiltered == []
    {
      var n := |lastClubsFiltered|;
      totalPages := TotalPages(n);
      var start := (currentPage - 1) * PageSize;
      shown := JsSlice(lastClubsFiltered, start, start + PageSize);
      PageSliceSpec(lastClubsFiltered, currentPage);
      controls := RenderPagination(totalPages, currentPage);
    }
  }
}
