/** The older root-level directory script, `main.js`: one clubs collection,
    sport matched by exact equality with `club.sport`, no guards for missing
    fields (a club without a name makes the search handler throw), and a page
    count that is 0 for an empty list. */
module LegacyClubDirectory {
  import opened Wrappers
  import opened Text
  import opened Sequences
  import opened Clubs
  import opened Paging
  import Current = ClubDirectory

  /** The exceptions the handlers can raise. */
  datatype ScriptError = TypeError(message: string) | ReferenceError(name: string)

  /** A record of the leagues collection. */
  datatype LeagueRecord = LeagueRecord(name: Option<string>)

  /** `leagues.map(l => l.name)`: one name per record, in order. */
  function LeagueNames(records: seq<LeagueRecord>): (names: seq<Option<string>>)
    ensures |names| == |records|
    ensures forall i :: 0 <= i < |records| ==> names[i] == records[i].name
  {
    if records == [] then [] else [records[0].name] + LeagueNames(records[1..])
  }

  /** The per-club test of `filterAndRenderClubs`: each of the four selections
      is empty or exactly equal to the club's field. */
  predicate Matches(c: Club, sel: Selection) {
    && FieldMatches(sel.sport, c.sport)
    && FieldMatches(sel.league, c.league)
    && FieldMatches(sel.location, c.location)
    && FieldMatches(sel.ageGroup, c.ageGroup)
  }

  function MatchesFn(sel: Selection): Club -> bool {
    c => Matches(c, sel)
  }

  function Filter(all: seq<Club>, sel: Selection): seq<Club> {
    Keep(all, MatchesFn(sel))
  }

  /** The filter result is an in-order subsequence of all clubs holding each
      club that passes the four tests as often as it occurs there, and no other. */
  lemma FilterSpec(all: seq<Club>, sel: Selection)
    ensures IsSubseq(Filter(all, sel), all)
    ensures forall c :: c in Filter(all, sel) <==> c in all && Matches(c, sel)
    ensures forall c :: multiset(Filter(all, sel))[c] == if Matches(c, sel) then multiset(all)[c] else 0
  {
    KeepSpec(all, MatchesFn(sel));
  }

  /** The current script's filter shows every club this one shows, in the same
      order: an explicit sport equal to the selection passes both sport tests. */
  lemma CurrentFilterKeepsLegacyResult(all: seq<Club>, sel: Selection)
    ensures IsSubseq(Filter(all, sel), Current.Filter(all, sel))
  {
    forall c | c in all && MatchesFn(sel)(c) ensures Current.MatchesFn(sel)(c) {
      assert Current.Matches(c, sel);
    }
    KeepStrongerIsSubseq(all, MatchesFn(sel), Current.MatchesFn(sel));
  }

  /** The search test on one club. `club.name.toLowerCase()` throws on a
      missing name; the location is read only when the name does not match,
      and throws when missing. */
  function SearchMatch(c: Club, query: string): Result<bool, ScriptError> {
    match c.name
    case None => Failure(TypeError("club.name is undefined"))
    case Some(n) =>
      if Contains(Lower(n), query) then Success(true)
      else
        match c.location
        case None => Failure(TypeError("club.location is undefined"))
        case Some(l) => Success(Contains(Lower(l), query))
  }

  predicate SearchKeeps(c: Club, sel: Selection, query: string) {
    SearchMatch(c, query) == Success(true) && Matches(c, sel)
  }

  function SearchFn(sel: Selection, query: string): Club -> bool {
    c => SearchKeeps(c, sel, query)
  }

  /** The search-submit handler's `allClubs.filter(...)` for a normalised
      query: the callback runs club by club and the first exception aborts it. */
  function Search(all: seq<Club>, sel: Selection, query: string): Result<seq<Club>, ScriptError> {
    if all == [] then Success([])
    else
      match SearchMatch(all[0], query)
      case Failure(e) => Failure(e)
      case Success(hit) =>
        match Search(all[1..], sel, query)
        case Failure(e) => Failure(e)
        case Success(rest) => Success((if hit && Matches(all[0], sel) then [all[0]] else []) + rest)
  }

  /** The search throws exactly when the test throws on some club, and
      otherwise keeps the clubs that match the query and the four selections. */
  lemma {:induction false} SearchSpec(all: seq<Club>, sel: Selection, query: string)
    ensures Search(all, sel, query).Failure? <==> exists c :: c in all && SearchMatch(c, query).Failure?
    ensures Search(all, sel, query).Success? ==> Search(all, sel, query).value == Keep(all, SearchFn(sel, query))
    decreases |all|
  {
    if all != [] {
      SearchSpec(all[1..], sel, query);
      assert forall c :: c in all[1..] ==> c in all;
      if SearchMatch(all[0], query).Success? {
        assert forall c :: c in all ==> c == all[0] || c in all[1..];
      }
    }
  }

  /** The search never throws when every club has a name and a location. */
  lemma CompleteClubsNeverThrow(all: seq<Club>, sel: Selection, query: string)
    requires forall c :: c in all ==> c.name.Some? && c.location.Some?
    ensures Search(all, sel, query) == Success(Keep(all, SearchFn(sel, query)))
  {
    SearchSpec(all, sel, query);
  }

  /** One club without a name makes every search throw. */
  lemma MissingNameThrows(all: seq<Club>, sel: Selection, query: string, c: Club)
    requires c in all && c.name.None?
    ensures Search(all, sel, query).Failure?
  {
    SearchSpec(all, sel, query);
  }

  /** An empty query matches every named club, since every string contains "". */
  lemma EmptySearchIsFilter(all: seq<Club>, sel: Selection)
    requires forall c :: c in all ==> c.name.Some?
    ensures Search(all, sel, "") == Success(Filter(all, sel))
  {
    SearchSpec(all, sel, "");
    forall c | c in all ensures SearchMatch(c, "") == Success(true) {
      ContainsEmpty(Lower(c.name.value));
    }
    KeepAgrees(all, SearchFn(sel, ""), MatchesFn(sel));
  }

  /** Where this search does not throw, the current script's search shows
      every club it shows, in the same order. */
  lemma CurrentSearchKeepsLegacyResult(all: seq<Club>, sel: Selection, query: string)
    requires Search(all, sel, query).Success?
    ensures IsSubseq(Search(all, sel, query).value, Current.Search(all, sel, query))
  {
    SearchSpec(all, sel, query);
    forall c | c in all && SearchFn(sel, query)(c) ensures Current.SearchFn(sel, query)(c) {
      assert Current.Matches(c, sel);
      assert Current.NameText(c) == Lower(c.name.value);
    }
    KeepStrongerIsSubseq(all, SearchFn(sel, query), Current.SearchFn(sel, query));
  }

  predicate HasSport(c: Club, sport: string) {
    c.sport == Some(sport)
  }

  function HasSportFn(sport: string): Club -> bool {
    c => HasSport(c, sport)
  }

  /** The clubs `updateFiltersForSport` derives the drop-downs from: those whose
      sport equals the selected one, or all clubs for the empty sport. There is
      no fallback. */
  function FacetScope(all: seq<Club>, sport: string): seq<Club> {
    if sport != "" then Keep(all, HasSportFn(sport)) else all
  }

  /** The facet scope is an in-order subsequence of all clubs holding each club
      of the selected sport as often as it occurs there, and no other. */
  lemma FacetScopeSpec(all: seq<Club>, sport: string)
    ensures IsSubseq(FacetScope(all, sport), all)
    ensures forall c :: c in FacetScope(all, sport) <==> c in all && FieldMatches(sport, c.sport)
    ensures forall c :: multiset(FacetScope(all, sport))[c] == if FieldMatches(sport, c.sport) then multiset(all)[c] else 0
  {
    if sport != "" {
      KeepSpec(all, HasSportFn(sport));
    } else {
      SubseqRefl(all);
    }
  }

  function SportFacets(all: seq<Club>, sport: string): Facets {
    FacetsOf(FacetScope(all, sport))
  }

  /** The default tab as written: "Football" if a tab has exactly that name;
      otherwise the fallback reads the undeclared `allTab` and throws. */
  function DefaultTabAsWritten(names: seq<string>): Result<string, ScriptError> {
    if "Football" in names then Success("Football") else Failure(ReferenceError("allTab"))
  }

  /** Without a tab named exactly "Football" the sports callback throws, so no
      tab is selected, no clubs are filtered and no click handler is attached. */
  lemma DefaultTabThrowsWithoutFootball()
    ensures DefaultTabAsWritten([]) == Failure(ReferenceError("allTab"))
    ensures DefaultTabAsWritten(["Cricket"]) == Failure(ReferenceError("allTab"))
    ensures DefaultTabAsWritten(["football"]) == Failure(ReferenceError("allTab"))
  {
    assert "Football" != "Cricket";
    assert "Football" != "football";
  }

  /** The default sport as intended: "Football" when a tab has exactly that
      name (case-sensitive), otherwise "" (all sports). */
  function DefaultSport(names: seq<string>): (s: string)
    ensures s in names || s == ""
    ensures s == "" ==> forall i :: 0 <= i < |names| ==> names[i] != "Football"
  {
    if "Football" in names then "Football" else ""
  }

  lemma DefaultSportAgreesWhereDefined(names: seq<string>)
    ensures DefaultTabAsWritten(names).Success? <==> DefaultSport(names) != ""
    ensures DefaultTabAsWritten(names).Success? ==> DefaultTabAsWritten(names).value == DefaultSport(names)
  {
  }

  lemma SubseqOfEmpty(a: seq<Club>)
    requires IsSubseq(a, [])
    ensures a == []
  {
  }

  /** The closure state of the script and the handlers that update it. */
  class Directory {
    var allClubs: seq<Club>
    var lastClubsFiltered: seq<Club>
    var currentPage: int

    /** The current page is 1, or a real page of the shown list (whose page
        count may be 0), and the shown list is drawn from all clubs. */
    ghost predicate Valid()
      reads this
    {
      && 1 <= currentPage
      && (currentPage == 1 || currentPage <= CeilPages(|lastClubsFiltered|))
      && IsSubseq(lastClubsFiltered, allClubs)
    }

    constructor ()
      ensures Valid()
      ensures allClubs == [] && lastClubsFiltered == [] && currentPage == 1
    {
      allClubs, lastClubsFiltered, currentPage := [], [], 1;
    }

    /** The one clubs collection arrives: it replaces all clubs and is shown
        whole, on the same page number; the age groups are recomputed. */
    method LoadClubs(clubs: seq<Club>) returns (ageGroups: seq<string>)
      requires Valid()
      requires allClubs == []
      modifies this
      ensures Valid()
      ensures allClubs == clubs && lastClubsFiltered == clubs
      ensures currentPage == old(currentPage)
      ensures ageGroups == Facet(clubs, AgeGroup)
    {
      SubseqOfEmpty(lastClubsFiltered);
      allClubs := clubs;
      ageGroups := Facet(clubs, AgeGroup);
      lastClubsFiltered := clubs;
      SubseqRefl(clubs);
    }

    /** `filterAndRenderClubs`: the filtered clubs become the shown list, from page 1. */
    method ApplyFilter(sel: Selection)
      requires Valid()
      modifies this`lastClubsFiltered, this`currentPage
      ensures Valid()
      ensures lastClubsFiltered == Filter(allClubs, sel)
      ensures currentPage == 1
    {
      FilterSpec(allClubs, sel);
      lastClubsFiltered := Filter(allClubs, sel);
      currentPage := 1;
    }

    /** The search-submit handler, given the raw search box value. When the
        filter callback throws, the handler stops before changing anything. */
    method ApplySearch(raw: string, sel: Selection) returns (error: Option<ScriptError>)
      requires Valid()
      modifies this`lastClubsFiltered, this`currentPage
      ensures Valid()
      ensures match Search(allClubs, sel, NormalizeQuery(raw))
        case Success(found) => error == None && lastClubsFiltered == found && currentPage == 1
        case Failure(e) =>
          error == Some(e) && lastClubsFiltered == old(lastClubsFiltered) && currentPage == old(currentPage)
    {
      var query := NormalizeQuery(raw);
      SearchSpec(allClubs, sel, query);
      match Search(allClubs, sel, query)
      case Failure(e) =>
        error := Some(e);
      case Success(found) =>
        KeepIsSubseq(allClubs, SearchFn(sel, query));
        lastClubsFiltered := found;
        currentPage := 1;
        error := None;
    }

    /** A sport tab click: the drop-downs are rebuilt from the sport's facets
        (which resets them to "all"), then the clubs are filtered from page 1. */
    method SelectSport(sport: string) returns (facets: Facets)
      requires Valid()
      modifies this`lastClubsFiltered, this`currentPage
      ensures Valid()
      ensures facets == SportFacets(allClubs, sport)
      ensures lastClubsFiltered == Filter(allClubs, Selection(sport, "", "", ""))
      ensures currentPage == 1
    {
      facets := SportFacets(allClubs, sport);
      ApplyFilter(Selection(sport, "", "", ""));
    }

    /** The sports collection arrives: the intended default sport is selected. */
    method LoadSports(names: seq<string>) returns (selected: string, facets: Facets)
      requires Valid()
      modifies this`lastClubsFiltered, this`currentPage
      ensures Valid()
      ensures selected == DefaultSport(names)
      ensures facets == SportFacets(allClubs, selected)
      ensures lastClubsFiltered == Filter(allClubs, Selection(selected, "", "", ""))
      ensures currentPage == 1
    {
      selected := DefaultSport(names);
      facets := SelectSport(selected);
    }

    /** The Prev button, which exists only past page 1. */
    method Prev()
      requires Valid()
      requires PrevButton in Controls(CeilPages(|lastClubsFiltered|), currentPage)
      modifies this`currentPage
      ensures Valid()
      ensures currentPage == old(currentPage) - 1
    {
      PrevShownIff(CeilPages(|lastClubsFiltered|), currentPage);
      TargetInRange(CeilPages(|lastClubsFiltered|), currentPage, PrevButton);
      currentPage := currentPage - 1;
    }

    /** The Next button, which exists only before the last page. */
    method Next()
      requires Valid()
      requires NextButton in Controls(CeilPages(|lastClubsFiltered|), currentPage)
      modifies this`currentPage
      ensures Valid()
      ensures currentPage == old(currentPage) + 1
    {
      NextShownIff(CeilPages(|lastClubsFiltered|), currentPage);
      TargetInRange(CeilPages(|lastClubsFiltered|), currentPage, NextButton);
      currentPage := currentPage + 1;
    }

    /** A page button; the current page's button is disabled and cannot be clicked. */
    method GoTo(i: int)
      requires Valid()
      requires PageButton(i, false) in Controls(CeilPages(|lastClubsFiltered|), currentPage)
      modifies this`currentPage
      ensures Valid()
      ensures currentPage == i
    {
      PageButtonShownIff(CeilPages(|lastClubsFiltered|), currentPage, i, false);
      TargetInRange(CeilPages(|lastClubsFiltered|), currentPage, PageButton(i, false));
      currentPage := i;
    }

    /** `renderClubs(lastClubsFiltered)`: the clubs of the current page, the page
        count (0 for an empty list) and the pagination controls. In a valid
        state the page is empty only when nothing matched. */
    method Render() returns (shown: seq<Club>, totalPages: int, controls: seq<Control>)
      requires Valid()
      ensures totalPages == CeilPages(|lastClubsFiltered|)
      ensures shown == PageSlice(lastClubsFiltered, currentPage)
      ensures controls == Controls(totalPages, currentPage)
      ensures |shown| <= PageSize
      ensures shown == [] <==> lastClubsFiltered == []
    {
      totalPages := CeilPages(|lastClubsFiltered|);
      var start := (currentPage - 1) * PageSize;
      shown := JsSlice(lastClubsFiltered, start, start + PageSize);
      PageSliceSpec(lastClubsFiltered, currentPage);
      controls := RenderPagination(totalPages, currentPage);
    }
  }
}
