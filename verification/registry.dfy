/** The dashboard's static configuration: the three tabs ("orientations")
    with their canonical street order, their two travel directions and the
    main-street filter of the alternate-route tabs, and the positional
    date-range-type codes of the controls. */
module Registry {
  import opened Common

  datatype Orientation = NS | Alternate | AlternateEW

  /** Tabs in the order of the source's `OrderedDict`s. */
  const Orientations: seq<Orientation> := [NS, Alternate, AlternateEW]

  /** The tab key the controls pass around. */
  function Name(o: Orientation): string {
    match o
    case NS => "ns"
    case Alternate => "alternate"
    case AlternateEW => "alternate_ew"
  }

  /** `STREETS[orientation]`: the canonical row order of the table. */
  function Streets(o: Orientation): seq<string> {
    match o
    case NS => [
      "DVP between Bayview Ramp and Don Mills", "DVP between Bayview Ramp and Dundas",
      "DVP between Don Mills and Wynford", "DVP between Lawrence and Wynford",
      "DVP between Lawrence and York Mills"]
    case Alternate => [
      "Bayview Between DVP and Eglinton", "Bayview Between Eglinton and Lawrence",
      "Bayview Between Lawrence and York Mills", "Bayview Between York Mills and 401",
      "Don Mills Between DVP and Eglinton", "Don Mills Between Eglinton and Lawrence",
      "Don Mills Between Lawrence and York Mills", "Don Mills Between York Mills and Sheppard",
      "Leslie Between Eglinton and Lawrence", "Leslie Between Lawrence and York Mills",
      "Leslie Between York Mills and 401", "Victoria Park Ave Between Eglinton and Lawrence",
      "Victoria Park Ave Between Ellesmere and 401", "Victoria Park Ave Between Lawrence and Ellesmere",
      "Victoria Park Ave Between St Clair and Eglinton", "Woodbine Between Danforth and OConnor",
      "Woodbine Between Queen and Danforth"]
    case AlternateEW => [
      "Lawrence Between Don Mills and DVP", "Lawrence Between DVP and Victoria Park Ave",
      "Lawrence Between Leslie and Don Mills", "OConnor Between Broadview and Don Mills",
      "OConnor Between Don Mills and Woodbine", "OConnor Between Woodbine and Eglinton",
      "York Mills Between Bayview and Leslie", "York Mills Between Don Mills and DVP",
      "York Mills Between DVP and Victoria Park Ave", "York Mills Between Leslie and Don Mills"]
  }

  /** `DIRECTIONS[orientation]`: the two table/graph directions, in column order. */
  function Directions(o: Orientation): seq<string> {
    match o
    case NS => ["NB", "SB"]
    case Alternate => ["NB", "SB"]
    case AlternateEW => ["EB", "WB"]
  }

  /** `DROPDOWN_MAIN_STREETS[orientation]`; the north-south DVP tab has none. */
  function MainStreets(o: Orientation): Option<seq<string>> {
    match o
    case NS => None
    case Alternate => Some(["Bayview", "Don Mills", "Leslie", "Victoria Park Ave", "Woodbine"])
    case AlternateEW => Some(["Lawrence", "OConnor", "York Mills"])
  }

  predicate IsAlternate(o: Orientation) {
    o == Alternate || o == AlternateEW
  }

  /** Every tab lists each street once (pandas refuses duplicate categories). */
  lemma StreetListsHaveNoDuplicates(o: Orientation)
    ensures NoDuplicates(Streets(o))
  {
    match o
    case NS => DvpStreetsDistinct();
    case Alternate => AlternateStreetsDistinct();
    case AlternateEW => AlternateEWStreetsDistinct();
  }

  lemma DvpStreetsDistinct()
    ensures NoDuplicates(Streets(NS))
  {
  }

  lemma AlternateStreetsDistinct()
    ensures NoDuplicates(Streets(Alternate))
  {
  }

  lemma AlternateEWStreetsDistinct()
    ensures NoDuplicates(Streets(AlternateEW))
  {
  }

  /** One tab's configuration as the table code reads it. */
  datatype Tab = Tab(orientation: Orientation, streets: seq<string>, directions: seq<string>, mainStreets: Option<seq<string>>)

  /** The registry entries of a tab. */
  function TabOf(o: Orientation): (t: Tab)
    ensures ValidTab(t) && t.orientation == o
  {
    StreetListsHaveNoDuplicates(o);
    Tab(o, Streets(o), Directions(o), MainStreets(o))
  }

  /** What the table code relies on: no street listed twice, two directions,
      and a main-street list exactly on the alternate-route tabs. */
  predicate ValidTab(t: Tab) {
    && NoDuplicates(t.streets)
    && |t.directions| == 2
    && (t.mainStreets.Some? <==> IsAlternate(t.orientation))
  }

  /** `get_orientation_from_dir`: the first tab, in registry order, whose
      direction list contains `direction`; None when no tab has it. */
  function OrientationFromDir(direction: string): (r: Option<Orientation>)
    ensures r.Some? ==> direction in Directions(r.value)
    ensures r.Some? ==> forall i :: 0 <= i < IndexOf(Orientations, r.value) ==> direction !in Directions(Orientations[i])
    ensures r.None? <==> forall o :: direction !in Directions(o)
  {
    AllOrientationsListed();
    FirstWithDirection(Orientations, direction)
  }

  lemma AllOrientationsListed()
    ensures forall o :: o in Orientations
    ensures NoDuplicates(Orientations)
  {
    forall o: Orientation ensures o in Orientations {
      match o
      case NS => assert Orientations[0] == o;
      case Alternate => assert Orientations[1] == o;
      case AlternateEW => assert Orientations[2] == o;
    }
  }

  function FirstWithDirection(os: seq<Orientation>, direction: string): (r: Option<Orientation>)
    requires forall o :: o in os
    requires NoDuplicates(os)
    ensures r.Some? ==> r.value in os && direction in Directions(r.value)
    ensures r.Some? ==> forall i :: 0 <= i < IndexOf(os, r.value) ==> direction !in Directions(os[i])
    ensures r.None? <==> forall o :: o in os ==> direction !in Directions(o)
  {
    FirstWithDirectionFrom(os, direction, 0)
  }

  function FirstWithDirectionFrom(os: seq<Orientation>, direction: string, k: nat): (r: Option<Orientation>)
    requires k <= |os| && NoDuplicates(os)
    requires forall i :: 0 <= i < k ==> direction !in Directions(os[i])
    ensures r.Some? ==> r.value in os && direction in Directions(r.value)
    ensures r.Some? ==> forall i :: 0 <= i < IndexOf(os, r.value) ==> direction !in Directions(os[i])
    ensures r.None? <==> forall i :: 0 <= i < |os| ==> direction !in Directions(os[i])
    decreases |os| - k
  {
    if k == |os| then None
    else if direction in Directions(os[k]) then
      assert IndexOf(os, os[k]) == k;
      Some(os[k])
    else FirstWithDirectionFrom(os, direction, k + 1)
  }

  /** The middle tab shares the DVP tab's directions, so a direction never
      resolves to it. */
  lemma AlternateNeverResolved(direction: string)
    ensures OrientationFromDir(direction) != Some(Alternate)
  {
  }

  /** The four date-range types, `DATERANGE_TYPES`. */
  datatype RangeType = LastDay | SelectDate | SelectWeek | SelectMonth

  const RangeTypes: seq<RangeType> := [LastDay, SelectDate, SelectWeek, SelectMonth]

  /** Python list indexing `s[i]`: negative indices count from the end and
      anything else out of range is an IndexError (None). */
  function PyIndex<T>(s: seq<T>, i: int): (r: Option<T>)
    ensures r.Some? <==> -|s| <= i < |s|
    ensures 0 <= i < |s| ==> r == Some(s[i])
    ensures -|s| <= i < 0 ==> r == Some(s[|s| + i])
  {
    if 0 <= i < |s| then Some(s[i])
    else if -|s| <= i < 0 then Some(s[|s| + i])
    else None
  }

  /** `DATERANGE_TYPES[i]` for a control's positional code. */
  function RangeTypeAt(i: int): Option<RangeType> {
    PyIndex(RangeTypes, i)
  }
}
