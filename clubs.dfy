/** The club record and the pieces of filtering that both versions of the
    directory script share: JavaScript truthiness on optional fields, the
    exact-match test of a drop-down selection, and facet derivation
    (`[...new Set(clubs.map(c => c.field).filter(Boolean))]`). */
module Clubs {
  import opened Wrappers
  import opened Sequences

  /** The collection a club was loaded from. The source tests this by object
      identity (`footballClubs.includes(club)`); here it is a tag set on load. */
  datatype Origin = FootballCollection | CricketCollection | NoCollection

  /** A club record as decoded from the clubs collections. Every field may be
      absent; display-only fields (logo, stadium, website, ...) are omitted. */
  datatype Club = Club(
    name: Option<string>,
    sport: Option<string>,
    sportName: Option<string>,
    league: Option<string>,
    location: Option<string>,
    ageGroup: Option<string>,
    origin: Origin)

  /** The three fields that have a drop-down filter. */
  datatype Field = League | Location | AgeGroup

  function FieldOf(c: Club, f: Field): Option<string> {
    match f
    case League => c.league
    case Location => c.location
    case AgeGroup => c.ageGroup
  }

  /** A string field is truthy when present and non-empty. */
  predicate Truthy(o: Option<string>) {
    o.Some? && o.value != ""
  }

  /** JavaScript `value || fallback` on an optional string field. */
  function OrElse(o: Option<string>, fallback: string): string {
    if Truthy(o) then o.value else fallback
  }

  /** The four selections the filters read: the active tab and the three
      drop-downs; "" means "all". */
  datatype Selection = Selection(sport: string, league: string, location: string, ageGroup: string)

  /** `!selected || value === selected`: an empty selection matches anything,
      otherwise the field must be present and exactly equal. */
  predicate FieldMatches(selected: string, value: Option<string>) {
    selected == "" || value == Some(selected)
  }

  /** `clubs.map(c => c[f]).filter(Boolean)`: the truthy values of field `f`,
      in club order. */
  function Present(clubs: seq<Club>, f: Field): (vs: seq<string>)
    ensures forall v :: v in vs ==> v != "" && exists c :: c in clubs && FieldOf(c, f) == Some(v)
    ensures forall c :: c in clubs && Truthy(FieldOf(c, f)) ==> FieldOf(c, f).value in vs
  {
    if clubs == [] then []
    else
      var c := clubs[0];
      (if Truthy(FieldOf(c, f)) then [FieldOf(c, f).value] else []) + Present(clubs[1..], f)
  }

  /** The options of one dependent drop-down: each value that some club of
      `clubs` carries in field `f`, once, never empty. */
  function Facet(clubs: seq<Club>, f: Field): (r: seq<string>)
    ensures Distinct(r)
    ensures forall v :: v in r ==> v != "" && exists c :: c in clubs && FieldOf(c, f) == Some(v)
    ensures forall c :: c in clubs && Truthy(FieldOf(c, f)) ==> FieldOf(c, f).value in r
  {
    Dedup(Present(clubs, f))
  }

  /** Facet options appear in the order in which their values first occur
      among the clubs (JavaScript Sets iterate in insertion order). */
  lemma FacetFirstOccurrenceOrder(clubs: seq<Club>, f: Field)
    ensures forall i, j :: 0 <= i < j < |Facet(clubs, f)| ==>
      FirstIndex(Present(clubs, f), Facet(clubs, f)[i]) < FirstIndex(Present(clubs, f), Facet(clubs, f)[j])
  {
    DedupFirstOccurrenceOrder(Present(clubs, f));
  }

  /** The three facet lists handed to the drop-downs. */
  datatype Facets = Facets(leagues: seq<string>, locations: seq<string>, ageGroups: seq<string>)

  function FacetsOf(clubs: seq<Club>): Facets {
    Facets(Facet(clubs, League), Facet(clubs, Location), Facet(clubs, AgeGroup))
  }
}
