/**
 * The retrieval cycle (fetchData) and the concert reconciliation
 * (createArtistSummary) of web.go, over a store that holds the decoded
 * resources between cycles.
 */
module Web {
  import opened GoStrings
  import opened Util
  import opened Types

  const StatusOK: int := 200
  const StatusInternalServerError: int := 500
  const ServerErrorPrefix: string := "500 INTERNAL SERVER ERROR: "

  /** The status a successful cycle reports. */
  const Success: Error := Error(StatusOK, "")

  // ---------------------------------------------------------------------
  // make500Error
  // ---------------------------------------------------------------------

  /** The internal-server error that carries the cause text of a failure. */
  function Make500Error(message: string): (e: Error)
    ensures e.code == StatusInternalServerError
    ensures ErrorCause(e) == Some(message)
  {
    Error(StatusInternalServerError, ServerErrorPrefix + message)
  }

  /** Recovers the cause from an internal-server error, if `e` is one. */
  function ErrorCause(e: Error): (cause: Option<string>)
    ensures cause.Some? ==> e.code == StatusInternalServerError && e.message == ServerErrorPrefix + cause.value
  {
    if e.code == StatusInternalServerError && ServerErrorPrefix <= e.message
    then Some(e.message[|ServerErrorPrefix|..])
    else None
  }

  /** Every error that carries a cause is the one Make500Error builds from it. */
  lemma Make500ErrorOfCause(e: Error)
    requires ErrorCause(e).Some?
    ensures Make500Error(ErrorCause(e).value) == e
  {
    assert ServerErrorPrefix + e.message[|ServerErrorPrefix|..] == e.message;
  }

  /** Distinct causes give distinct errors. */
  lemma Make500ErrorInjective(a: string, b: string)
    requires a != b
    ensures Make500Error(a) != Make500Error(b)
  {
    assert ErrorCause(Make500Error(a)) != ErrorCause(Make500Error(b));
  }

  // ---------------------------------------------------------------------
  // fetchData
  // ---------------------------------------------------------------------

  /**
   * What retrieving one resource and decoding it into its field yields:
   * the transport failed (the field is left alone), the text did not
   * decode (the field holds whatever the decoder left in it), or it
   * decoded to `value`.
   */
  datatype Step<T> =
    | FetchFailed(cause: string)
    | DecodeFailed(cause: string, residue: T)
    | Decoded(value: T)

  /** The value of the field that a step writes, given its value before. */
  function After<T>(current: T, step: Step<T>): T {
    match step
    case FetchFailed(_) => current
    case DecodeFailed(_, residue) => residue
    case Decoded(value) => value
  }

  /** The field after the cycle: written only when its resource was retrieved. */
  function StoredIf<T>(retrieved: bool, current: T, step: Step<T>): T {
    if retrieved then After(current, step) else current
  }

  datatype Resource = ApiRoot | ArtistsResource | RelationsResource | LocationsResource | DatesResource

  /** The order in which a cycle may retrieve the resources. */
  const FetchOrder: seq<Resource> :=
    [ApiRoot, ArtistsResource, RelationsResource, LocationsResource, DatesResource]

  /** The position of each resource in FetchOrder. */
  function Rank(r: Resource): nat {
    match r
    case ApiRoot => 0
    case ArtistsResource => 1
    case RelationsResource => 2
    case LocationsResource => 3
    case DatesResource => 4
  }

  /** A cycle that retrieved a prefix of FetchOrder got as far as `r`. */
  predicate Reached(retrieved: seq<Resource>, r: Resource) {
    Rank(r) < |retrieved|
  }

  /** The relations are usable when they were decoded and hold at least one record. */
  predicate RelationsUsable(relat: Step<RelationIndex>) {
    relat.Decoded? && |relat.value.index| > 0
  }

  /** The result of one cycle: its status and the resources it retrieved, in order. */
  datatype Cycle = Cycle(status: Error, retrieved: seq<Resource>)

  /**
   * The decision chain of one cycle: root index and artists are required,
   * relations are best effort, and locations and dates are required once
   * the relations are not usable.
   */
  function Aggregate(api: Step<Groupies>, artists: Step<seq<Artist>>, relat: Step<RelationIndex>,
                     locat: Step<LocationIndex>, d: Step<DateIndex>): Cycle
  {
    if !api.Decoded? then Cycle(Make500Error(api.cause), [ApiRoot])
    else if !artists.Decoded? then Cycle(Make500Error(artists.cause), [ApiRoot, ArtistsResource])
    else if RelationsUsable(relat) then Cycle(Success, [ApiRoot, ArtistsResource, RelationsResource])
    else if !locat.Decoded? then
      Cycle(Make500Error(locat.cause), [ApiRoot, ArtistsResource, RelationsResource, LocationsResource])
    else if !d.Decoded? then Cycle(Make500Error(d.cause), FetchOrder)
    else Cycle(Success, FetchOrder)
  }

  /**
   * A cycle succeeds exactly when root index and artists decode and either
   * the relations are usable or both locations and dates decode; a success
   * carries no message, and every other outcome is an internal-server error
   * with a cause.
   */
  lemma AggregateSucceedsIff(api: Step<Groupies>, artists: Step<seq<Artist>>, relat: Step<RelationIndex>,
                             locat: Step<LocationIndex>, d: Step<DateIndex>)
    ensures var c := Aggregate(api, artists, relat, locat, d);
      (c.status.code == StatusOK <==>
         api.Decoded? && artists.Decoded? && (RelationsUsable(relat) || (locat.Decoded? && d.Decoded?)))
      && (c.status.code == StatusOK ==> c.status == Success)
      && (c.status.code != StatusOK ==>
            c.status.code == StatusInternalServerError && ErrorCause(c.status).Some?)
  {
  }

  /**
   * The resources are retrieved in the fixed order and the cycle stops at
   * the first required failure: the retrieved list is a non-empty prefix of
   * FetchOrder, the relations are tried exactly when root index and artists
   * decode, and locations and dates only when the relations are not usable.
   */
  lemma AggregateOrder(api: Step<Groupies>, artists: Step<seq<Artist>>, relat: Step<RelationIndex>,
                       locat: Step<LocationIndex>, d: Step<DateIndex>)
    ensures var c := Aggregate(api, artists, relat, locat, d);
      1 <= |c.retrieved| <= |FetchOrder| && c.retrieved == FetchOrder[..|c.retrieved|]
      && (forall r :: Reached(c.retrieved, r) <==> r in c.retrieved)
      && (RelationsResource in c.retrieved <==> api.Decoded? && artists.Decoded?)
      && (LocationsResource in c.retrieved <==>
            api.Decoded? && artists.Decoded? && !RelationsUsable(relat))
      && (DatesResource in c.retrieved <==>
            api.Decoded? && artists.Decoded? && !RelationsUsable(relat) && locat.Decoded?)
  {
    assert FetchOrder[..1] == [ApiRoot];
    assert FetchOrder[..2] == [ApiRoot, ArtistsResource];
    assert FetchOrder[..3] == [ApiRoot, ArtistsResource, RelationsResource];
    assert FetchOrder[..4] == [ApiRoot, ArtistsResource, RelationsResource, LocationsResource];
    assert FetchOrder[..5] == FetchOrder;
  }

  /**
   * The error of a failed cycle carries the cause of the last resource it
   * retrieved, which is never the relations: they cannot fail a cycle.
   */
  lemma AggregateFailureCause(api: Step<Groupies>, artists: Step<seq<Artist>>, relat: Step<RelationIndex>,
                              locat: Step<LocationIndex>, d: Step<DateIndex>)
    ensures var c := Aggregate(api, artists, relat, locat, d);
      c.status.code != StatusOK ==>
        var last := c.retrieved[|c.retrieved| - 1];
        last != RelationsResource
        && (last == ApiRoot ==> ErrorCause(c.status) == Some(api.cause))
        && (last == ArtistsResource ==> ErrorCause(c.status) == Some(artists.cause))
        && (last == LocationsResource ==> ErrorCause(c.status) == Some(locat.cause))
        && (last == DatesResource ==> ErrorCause(c.status) == Some(d.cause))
  {
  }

  /**
   * The relations step never fails a cycle on its own: whatever happened to
   * it, when root index and artists decode the status is the one of the
   * locations and dates (or success when the relations are usable).
   */
  lemma RelationsBestEffort(api: Step<Groupies>, artists: Step<seq<Artist>>, relat: Step<RelationIndex>,
                            locat: Step<LocationIndex>, d: Step<DateIndex>)
    requires api.Decoded? && artists.Decoded? && !RelationsUsable(relat)
    ensures Aggregate(api, artists, relat, locat, d) == Aggregate(api, artists, FetchFailed(""), locat, d)
  {
  }

  /**
   * A cycle that fell back to locations and dates may still leave non-empty
   * relations in the store: the ones of an earlier cycle when the transport
   * failed, or a partial decode. The cycle reaches the relations, so the
   * field FetchData writes for them is non-empty, and the reconciliation
   * then reads those relations and not the locations and dates just
   * retrieved.
   */
  lemma FallbackKeepsStaleRelations(current: RelationIndex, relat: Step<RelationIndex>,
                                    locs: LocationIndex, ds: DateIndex, g: Groupies, bands: seq<Artist>)
    requires !relat.Decoded?
    requires |After(current, relat).index| > 0
    ensures Aggregate(Decoded(g), Decoded(bands), relat, Decoded(locs), Decoded(ds)) == Cycle(Success, FetchOrder)
    ensures var c := Aggregate(Decoded(g), Decoded(bands), relat, Decoded(locs), Decoded(ds));
      Reached(c.retrieved, RelationsResource)
      && |StoredIf(Reached(c.retrieved, RelationsResource), current, relat).index| > 0
  {
  }

  // ---------------------------------------------------------------------
  // createArtistSummary: the relations branch
  // ---------------------------------------------------------------------

  /** The last record of the artist in the relation index, as the loop overwrites earlier ones. */
  function LastRelation(index: seq<Relation>, id: int): (found: Option<Relation>)
    ensures found.None? <==> forall k :: 0 <= k < |index| ==> index[k].id != id
    ensures found.Some? ==>
      exists k :: 0 <= k < |index| && index[k] == found.value && found.value.id == id
        && forall j :: k < j < |index| ==> index[j].id != id
  {
    if index == [] then None
    else if index[|index| - 1].id == id then Some(index[|index| - 1])
    else LastRelation(index[..|index| - 1], id)
  }

  /** The concerts built from the keys of `m` taken in `order`. */
  function ConcertsInOrder(order: seq<string>, m: map<string, seq<string>>): (cs: seq<Concert>)
    requires forall k :: k in order ==> k in m
    ensures |cs| == |order|
    ensures forall i :: 0 <= i < |order| ==> cs[i] == Concert(FormatLocations(order[i]), m[order[i]])
  {
    if order == [] then []
    else
      var last := order[|order| - 1];
      ConcertsInOrder(order[..|order| - 1], m) + [Concert(FormatLocations(last), m[last])]
  }

  /** `order` lists every key of `m` exactly once. */
  ghost predicate IsKeyOrder(order: seq<string>, m: map<string, seq<string>>) {
    (forall i, j :: 0 <= i < j < |order| ==> order[i] != order[j])
    && (forall k :: k in order <==> k in m)
  }

  /** One concert per key of `m`, in some order, with the key formatted and its dates as stored. */
  ghost predicate RelationConcerts(cs: seq<Concert>, m: map<string, seq<string>>) {
    exists order :: IsKeyOrder(order, m) && cs == ConcertsInOrder(order, m)
  }

  /** The concerts of the relations branch given the artist's last record, if any. */
  ghost predicate FromRelation(cs: seq<Concert>, found: Option<Relation>) {
    if found.None? then cs == [] else RelationConcerts(cs, found.value.datesLocations)
  }

  /** The keys that `order` lists. */
  ghost function KeysOf(order: seq<string>): set<string> {
    set k | k in order
  }

  lemma {:induction false} DistinctCardinality(order: seq<string>)
    requires forall i, j :: 0 <= i < j < |order| ==> order[i] != order[j]
    ensures |KeysOf(order)| == |order|
  {
    if order != [] {
      var init := order[..|order| - 1];
      var last := order[|order| - 1];
      DistinctCardinality(init);
      assert KeysOf(order) == KeysOf(init) + {last};
      assert last !in KeysOf(init);
    }
  }

  lemma KeysOfKeyOrder(order: seq<string>, m: map<string, seq<string>>)
    requires IsKeyOrder(order, m)
    ensures |order| == |m|
  {
    DistinctCardinality(order);
    assert KeysOf(order) == m.Keys;
  }

  /** The relations branch yields as many concerts as the record has location keys. */
  lemma RelationConcertsCount(cs: seq<Concert>, m: map<string, seq<string>>)
    requires RelationConcerts(cs, m)
    ensures |cs| == |m|
  {
    var order :| IsKeyOrder(order, m) && cs == ConcertsInOrder(order, m);
    KeysOfKeyOrder(order, m);
  }

  /** Every location key of the record has its concert, with its dates as stored. */
  lemma RelationConcertsComplete(cs: seq<Concert>, m: map<string, seq<string>>, k: string)
    requires RelationConcerts(cs, m)
    requires k in m
    ensures Concert(FormatLocations(k), m[k]) in cs
  {
    var order :| IsKeyOrder(order, m) && cs == ConcertsInOrder(order, m);
    var i :| 0 <= i < |order| && order[i] == k;
    assert cs[i] == Concert(FormatLocations(k), m[k]);
  }

  /** Every concert of the relations branch comes from a location key of the record. */
  lemma RelationConcertsSound(cs: seq<Concert>, m: map<string, seq<string>>, i: int)
    requires RelationConcerts(cs, m)
    requires 0 <= i < |cs|
    ensures exists k :: k in m && cs[i] == Concert(FormatLocations(k), m[k])
  {
    var order :| IsKeyOrder(order, m) && cs == ConcertsInOrder(order, m);
    assert order[i] in m;
  }

  /** A record with a single location key yields exactly that key's concert. */
  lemma RelationConcertsSingle(cs: seq<Concert>, k: string, v: seq<string>)
    requires RelationConcerts(cs, map[k := v])
    ensures cs == [Concert(FormatLocations(k), v)]
  {
    var m := map[k := v];
    var order :| IsKeyOrder(order, m) && cs == ConcertsInOrder(order, m);
    KeysOfKeyOrder(order, m);
    assert order[0] in m;
    assert order == [k];
  }

  // ---------------------------------------------------------------------
  // createArtistSummary: the locations and dates branch
  // ---------------------------------------------------------------------

  /** The locations of the first location record of the artist, or none. */
  function FirstLocations(index: seq<LocationRecord>, id: int): (locs: seq<string>)
    ensures (locs == [] && forall k :: 0 <= k < |index| ==> index[k].id != id)
      || exists k :: 0 <= k < |index| && index[k].id == id && locs == index[k].locations
           && forall j :: 0 <= j < k ==> index[j].id != id
  {
    if index == [] then []
    else if index[0].id == id then index[0].locations
    else FirstLocations(index[1..], id)
  }

  /** The dates of the first date record of the artist, or none. */
  function FirstDates(index: seq<DateRecord>, id: int): (dates: seq<string>)
    ensures (dates == [] && forall k :: 0 <= k < |index| ==> index[k].id != id)
      || exists k :: 0 <= k < |index| && index[k].id == id && dates == index[k].dates
           && forall j :: 0 <= j < k ==> index[j].id != id
  {
    if index == [] then []
    else if index[0].id == id then index[0].dates
    else FirstDates(index[1..], id)
  }

  /** The date text of each location: the dates joined by spaces, cut at `*`, the first piece dropped. */
  function DateGroups(dates: seq<string>): (groups: seq<string>)
    ensures forall i :: 0 <= i < |groups| ==> '*' !in groups[i]
  {
    Split(Join(dates, " "), '*')[1..]
  }

  function Min(a: int, b: int): int {
    if a <= b then a else b
  }

  /** The i-th location paired with the i-th date group, as far as both go. */
  function PairConcerts(locs: seq<string>, groups: seq<string>): seq<Concert> {
    seq(Min(|locs|, |groups|), i requires 0 <= i < Min(|locs|, |groups|) =>
      Concert(FormatLocations(locs[i]), Fields(groups[i])))
  }

  /** The concerts of the fallback branch for artist `id`. */
  function FallbackConcerts(locations: LocationIndex, dates: DateIndex, id: int): seq<Concert> {
    PairConcerts(FirstLocations(locations.index, id), DateGroups(FirstDates(dates.index, id)))
  }

  /** There are as many date groups as `*` characters in the dates. */
  lemma DateGroupsCount(dates: seq<string>)
    ensures |DateGroups(dates)| == SumCount(dates, '*')
  {
    JoinCount(dates, " ", '*');
    SplitCount(Join(dates, " "), '*');
  }

  /**
   * Only the text before the first `*` is lost: it holds no `*`, and with
   * the date groups it joins back by `*` into the joined dates.
   */
  lemma DateGroupsReassemble(dates: seq<string>)
    ensures var pieces := Split(Join(dates, " "), '*');
      '*' !in pieces[0] && Join([pieces[0]] + DateGroups(dates), "*") == Join(dates, " ")
  {
    var pieces := Split(Join(dates, " "), '*');
    SplitJoin(Join(dates, " "), '*');
    assert [pieces[0]] + DateGroups(dates) == pieces;
  }

  /**
   * The fallback yields one concert per location that has a date group:
   * min(locations, `*` count) concerts, none when the dates hold no `*`.
   */
  lemma FallbackConcertCount(locs: seq<string>, dates: seq<string>)
    ensures |PairConcerts(locs, DateGroups(dates))| == Min(|locs|, SumCount(dates, '*'))
    ensures SumCount(dates, '*') == 0 ==> PairConcerts(locs, DateGroups(dates)) == []
  {
    DateGroupsCount(dates);
  }

  /**
   * Each fallback concert is the formatted i-th location with the dates of
   * the i-th group: non-empty tokens without white space that together
   * hold all the group's other characters, in order.
   */
  lemma FallbackConcertShape(locs: seq<string>, groups: seq<string>, i: int)
    requires 0 <= i < |PairConcerts(locs, groups)|
    ensures var c := PairConcerts(locs, groups)[i];
      c.location == FormatLocations(locs[i])
      && '-' !in c.location && '_' !in c.location
      && (forall t :: t in c.dates ==> t != [] && NoSpace(t))
      && Concat(c.dates) == DropSpaces(groups[i])
  {
    FormatLocationsNoDashNoUnderscore(locs[i]);
    FieldsConcat(groups[i]);
  }

  /** Fields of one date group written as a space, the dates joined by spaces, and an optional space. */
  lemma FieldsOfGroup(ws: seq<string>, trail: bool)
    requires forall i :: 0 <= i < |ws| ==> ws[i] != [] && NoSpace(ws[i])
    ensures Fields(" " + Join(ws, " ") + (if trail then " " else "")) == ws
  {
    var j := Join(ws, " ");
    FieldsOfJoin(ws);
    if trail {
      FieldsTrailingSpace(j);
      assert " " + j + " " == " " + (j + " ");
      FieldsLeadingSpace(j + " ");
    } else {
      assert " " + j + "" == " " + j;
      FieldsLeadingSpace(j);
    }
  }

  /** The date group of one word. */
  lemma FieldsOfOneDate(d: string)
    requires d != [] && NoSpace(d)
    ensures Fields(" " + d + " ") == [d]
  {
    assert Join([d], " ") == d;
    FieldsOfGroup([d], true);
  }

  /** The date group of two words. */
  lemma FieldsOfTwoDates(d: string, e: string)
    requires d != [] && NoSpace(d) && e != [] && NoSpace(e)
    ensures Fields(" " + d + " " + e) == [d, e]
  {
    JoinFirst(d, [e], " ");
    assert [d] + [e] == [d, e];
    assert Join([e], " ") == e;
    FieldsOfGroup([d, e], false);
    assert " " + Join([d, e], " ") + "" == " " + d + " " + e;
  }

  /**
   * Dates laid out as a, b, `*`, d, e: the text before the `*` is dropped,
   * so the single group holds d and e and only the first of two locations
   * gets a concert.
   */
  lemma SentinelDropsLeadingText(locs: seq<string>, a: string, b: string, d: string, e: string)
    requires |locs| == 2
    requires '*' !in a && '*' !in b && '*' !in d && '*' !in e
    requires d != [] && NoSpace(d) && e != [] && NoSpace(e)
    ensures DateGroups([a, b, "*", d, e]) == [" " + d + " " + e]
    ensures PairConcerts(locs, DateGroups([a, b, "*", d, e])) == [Concert(FormatLocations(locs[0]), [d, e])]
  {
    JoinFive(a, b, "*", d, e, " ");
    var head, group := a + " " + b + " ", " " + d + " " + e;
    assert Join([a, b, "*", d, e], " ") == head + ['*'] + group;
    SplitTwoPieces(head, group, '*');
    FieldsOfTwoDates(d, e);
  }

  lemma TwoGroupDates(x: string, d1: string, d2: string, d3: string)
    requires '*' !in x && '*' !in d1 && '*' !in d2 && '*' !in d3
    ensures DateGroups([x, "*", d1, "*", d2 + " " + d3]) == [" " + d1 + " ", " " + d2 + " " + d3]
  {
    JoinFive(x, "*", d1, "*", d2 + " " + d3, " ");
    var head, first, second := x + " ", " " + d1 + " ", " " + d2 + " " + d3;
    var rest := first + ['*'] + second;
    assert x + " " + "*" + " " + d1 + " " + "*" + " " + (d2 + " " + d3) == head + ['*'] + rest;
    SplitFirst(head, rest, '*');
    SplitTwoPieces(first, second, '*');
  }

  /**
   * Dates laid out as x, `*`, d1, `*`, "d2 d3": two groups, holding d1 and
   * d2, d3, paired with two locations.
   */
  lemma TwoGroupFallback(locs: seq<string>, x: string, d1: string, d2: string, d3: string)
    requires |locs| == 2
    requires '*' !in x && '*' !in d1 && '*' !in d2 && '*' !in d3
    requires d1 != [] && NoSpace(d1) && d2 != [] && NoSpace(d2) && d3 != [] && NoSpace(d3)
    ensures PairConcerts(locs, DateGroups([x, "*", d1, "*", d2 + " " + d3]))
      == [Concert(FormatLocations(locs[0]), [d1]), Concert(FormatLocations(locs[1]), [d2, d3])]
  {
    TwoGroupDates(x, d1, d2, d3);
    FieldsOfOneDate(d1);
    FieldsOfTwoDates(d2, d3);
    var pc := PairConcerts(locs, [" " + d1 + " ", " " + d2 + " " + d3]);
    assert |pc| == 2;
  }

  /**
   * The fallback scenario: locations "london-uk", "paris-france" and dates
   * "x", "*", "01-01-2020", "*", "02-01-2020 03-01-2020" give the concerts
   * London, UK on 01-01-2020 and Paris, France on 02-01-2020 and 03-01-2020.
   */
  lemma FallbackScenario(locations: LocationIndex, dates: DateIndex)
    requires locations == LocationIndex([LocationRecord(1, ["london-uk", "paris-france"])])
    requires dates == DateIndex([DateRecord(1, ["x", "*", "01-01-2020", "*", "02-01-2020 03-01-2020"])])
    ensures FallbackConcerts(locations, dates, 1)
      == [Concert("London, UK", ["01-01-2020"]), Concert("Paris, France", ["02-01-2020", "03-01-2020"])]
  {
    var d1, d2, d3 := "01-01-2020", "02-01-2020", "03-01-2020";
    assert "02-01-2020 03-01-2020" == d2 + " " + d3;
    TwoGroupFallback(["london-uk", "paris-france"], "x", d1, d2, d3);
    FormatLondon();
    FormatParis();
  }

  // ---------------------------------------------------------------------
  // The store and its two operations
  // ---------------------------------------------------------------------

  /** The summary carries the artist's own identity fields. */
  predicate Summarizes(summary: ArtistSummary, artist: Artist) {
    summary.id == artist.id && summary.name == artist.name && summary.image == artist.image
    && summary.creationDate == artist.creationDate && summary.firstAlbum == artist.firstAlbum
    && summary.members == artist.members
  }

  /** The decoded resources, kept from one cycle to the next. */
  class Store {
    var groupies: Groupies
    var bands: seq<Artist>
    var relations: RelationIndex
    var locations: LocationIndex
    var dates: DateIndex

    /** Every resource starts empty. */
    constructor ()
      ensures groupies == Groupies("", "", "", "")
      ensures bands == [] && relations.index == [] && locations.index == [] && dates.index == []
    {
      groupies := Groupies("", "", "", "");
      bands := [];
      relations := RelationIndex([]);
      locations := LocationIndex([]);
      dates := DateIndex([]);
    }

    /**
     * One retrieval cycle over the outcomes of the five retrievals; it
     * reports the status and which resources it retrieved, and writes each
     * retrieved resource's field.
     */
    method FetchData(api: Step<Groupies>, artists: Step<seq<Artist>>, relat: Step<RelationIndex>,
                     locat: Step<LocationIndex>, d: Step<DateIndex>)
      returns (status: Error, retrieved: seq<Resource>)
      modifies this
      ensures Cycle(status, retrieved) == Aggregate(api, artists, relat, locat, d)
      ensures groupies == After(old(groupies), api)
      ensures bands == StoredIf(Reached(retrieved, ArtistsResource), old(bands), artists)
      ensures relations == StoredIf(Reached(retrieved, RelationsResource), old(relations), relat)
      ensures locations == StoredIf(Reached(retrieved, LocationsResource), old(locations), locat)
      ensures dates == StoredIf(Reached(retrieved, DatesResource), old(dates), d)
    {
      retrieved := [ApiRoot];
      if api.FetchFailed? {
        status := Make500Error(api.cause);
        return;
      }
      groupies := After(groupies, api);
      if api.DecodeFailed? {
        status := Make500Error(api.cause);
        return;
      }

      retrieved := [ApiRoot, ArtistsResource];
      if artists.FetchFailed? {
        status := Make500Error(artists.cause);
        return;
      }
      bands := After(bands, artists);
      if artists.DecodeFailed? {
        status := Make500Error(artists.cause);
        return;
      }

      var isDataAvailable := true;
      retrieved := [ApiRoot, ArtistsResource, RelationsResource];
      if relat.FetchFailed? {
        isDataAvailable := false;
      }
      if isDataAvailable {
        relations := After(relations, relat);
        if relat.DecodeFailed? {
          isDataAvailable := false;
        }
      }
      if |relations.index| == 0 {
        isDataAvailable := false;
      }
      if isDataAvailable {
        status := Success;
        return;
      }

      retrieved := [ApiRoot, ArtistsResource, RelationsResource, LocationsResource];
      if locat.FetchFailed? {
        status := Make500Error(locat.cause);
        return;
      }
      locations := After(locations, locat);
      if locat.DecodeFailed? {
        status := Make500Error(locat.cause);
        return;
      }

      retrieved := FetchOrder;
      if d.FetchFailed? {
        status := Make500Error(d.cause);
        return;
      }
      dates := After(dates, d);
      if d.DecodeFailed? {
        status := Make500Error(d.cause);
        return;
      }
      status := Success;
    }

    /**
     * The summary of `artist`: its own fields, and its concerts from the
     * relations when the store holds any, otherwise from its locations
     * paired with the `*`-separated groups of its dates.
     */
    method CreateArtistSummary(artist: Artist) returns (summary: ArtistSummary)
      ensures Summarizes(summary, artist)
      ensures |relations.index| > 0 ==>
        FromRelation(summary.concerts, LastRelation(relations.index, artist.id))
      ensures |relations.index| == 0 ==>
        summary.concerts == FallbackConcerts(locations, dates, artist.id)
    {
      summary := ArtistSummary(artist.id, artist.name, artist.image, artist.creationDate,
                               artist.firstAlbum, artist.members, []);

      if |relations.index| > 0 {
        var concerts := ConcertsFromRelations(artist.id);
        summary := summary.(concerts := concerts);
        return;
      }

      var locationsSlice := FindLocations(artist.id);
      var datesSlice := FindDates(artist.id);

      var datesString := Join(datesSlice, " ");
      var datesByStar := Split(datesString, '*')[1..];

      var concerts := PairLocations(locationsSlice, datesByStar);
      summary := summary.(concerts := concerts);
    }

    /** The concerts of the last relation record of artist `id`; none when it has no record. */
    method ConcertsFromRelations(id: int) returns (concerts: seq<Concert>)
      ensures FromRelation(concerts, LastRelation(relations.index, id))
    {
      concerts := [];
      var i := 0;
      while i < |relations.index|
        invariant 0 <= i <= |relations.index|
        invariant FromRelation(concerts, LastRelation(relations.index[..i], id))
      {
        var rel := relations.index[i];
        assert relations.index[..i + 1][..i] == relations.index[..i];
        if id == rel.id {
          concerts := RelationConcertList(rel.datesLocations);
        }
        i := i + 1;
      }
      assert relations.index[..i] == relations.index;
    }

    /** The locations of the first location record of artist `id`, or none. */
    method FindLocations(id: int) returns (locationsSlice: seq<string>)
      ensures locationsSlice == FirstLocations(locations.index, id)
    {
      locationsSlice := [];
      var j := 0;
      while j < |locations.index|
        invariant 0 <= j <= |locations.index|
        invariant locationsSlice == []
        invariant FirstLocations(locations.index[j..], id) == FirstLocations(locations.index, id)
      {
        assert locations.index[j..][1..] == locations.index[j + 1..];
        if locations.index[j].id == id {
          locationsSlice := locations.index[j].locations;
          break;
        }
        j := j + 1;
      }
    }

    /** The dates of the first date record of artist `id`, or none. */
    method FindDates(id: int) returns (datesSlice: seq<string>)
      ensures datesSlice == FirstDates(dates.index, id)
    {
      datesSlice := [];
      var j := 0;
      while j < |dates.index|
        invariant 0 <= j <= |dates.index|
        invariant datesSlice == []
        invariant FirstDates(dates.index[j..], id) == FirstDates(dates.index, id)
      {
        assert dates.index[j..][1..] == dates.index[j + 1..];
        if dates.index[j].id == id {
          datesSlice := dates.index[j].dates;
          break;
        }
        j := j + 1;
      }
    }
  }

  /** One concert per location key of a relation record, in the map's iteration order. */
  method RelationConcertList(m: map<string, seq<string>>) returns (concerts: seq<Concert>)
    ensures RelationConcerts(concerts, m)
  {
    concerts := [];
    var keys := m.Keys;
    ghost var order: seq<string> := [];
    while keys != {}
      invariant forall k :: k in order ==> k in m
      invariant forall p, q :: 0 <= p < q < |order| ==> order[p] != order[q]
      invariant forall k :: k in m <==> k in keys || k in order
      invariant forall k :: k in keys ==> k !in order
      invariant concerts == ConcertsInOrder(order, m)
      decreases |keys|
    {
      var k :| k in keys;
      concerts := concerts + [Concert(FormatLocations(k), m[k])];
      assert (order + [k])[..|order|] == order;
      order := order + [k];
      keys := keys - {k};
    }
    assert IsKeyOrder(order, m);
  }

  /** Each location with the white-space-separated dates of its group, while groups last. */
  method PairLocations(locationsSlice: seq<string>, datesByStar: seq<string>) returns (concerts: seq<Concert>)
    ensures concerts == PairConcerts(locationsSlice, datesByStar)
  {
    concerts := [];
    var i := 0;
    while i < |locationsSlice|
      invariant 0 <= i <= |locationsSlice|
      invariant |concerts| == Min(i, |datesByStar|)
      invariant forall k :: 0 <= k < |concerts| ==>
        concerts[k] == Concert(FormatLocations(locationsSlice[k]), Fields(datesByStar[k]))
    {
      var locationFormatted := FormatLocations(locationsSlice[i]);
      if i < |datesByStar| {
        concerts := concerts + [Concert(locationFormatted, Fields(datesByStar[i]))];
      }
      i := i + 1;
    }
  }

  // ---------------------------------------------------------------------
  // Cycles followed by a summary, on a fresh store
  // ---------------------------------------------------------------------

  /**
   * The end-to-end case: the relations fetch fails, the locations and dates
   * decode, and the artist's summary pairs London, UK with the first date
   * group and Paris, France with the second.
   */
  method EndToEndScenario() returns (status: Error, summary: ArtistSummary)
    ensures status == Success
    ensures summary.id == 1 && summary.name == "Queen"
    ensures summary.concerts
      == [Concert("London, UK", ["01-01-2020"]), Concert("Paris, France", ["02-01-2020", "03-01-2020"])]
  {
    var store := new Store();
    var root := Groupies("artists", "locations", "dates", "relation");
    var queen := Artist(1, "", "Queen", [], 0, "");
    var locations := LocationIndex([LocationRecord(1, ["london-uk", "paris-france"])]);
    var dates := DateIndex([DateRecord(1, ["x", "*", "01-01-2020", "*", "02-01-2020 03-01-2020"])]);
    var retrieved;
    status, retrieved := store.FetchData(Decoded(root), Decoded([queen]), FetchFailed("relation unreachable"),
                                         Decoded(locations), Decoded(dates));
    assert store.relations.index == [] && store.locations == locations && store.dates == dates;
    summary := store.CreateArtistSummary(queen);
    FallbackScenario(locations, dates);
  }

  /**
   * Stale relations: a first cycle stores a relation record; the second
   * cycle's relations fetch fails, so it falls back to locations and dates
   * and succeeds, yet the summary is still built from the stored record.
   */
  method StaleRelationsScenario() returns (first: Error, second: Error, retrieved: seq<Resource>,
                                           summary: ArtistSummary)
    ensures first == Success && second == Success && retrieved == FetchOrder
    ensures summary.concerts == [Concert("London, UK", ["01-01-2020"])]
  {
    var store := new Store();
    var root := Groupies("artists", "locations", "dates", "relation");
    var queen := Artist(1, "", "Queen", [], 0, "");
    var record := Relation(1, map["london-uk" := ["01-01-2020"]]);
    var earlier;
    first, earlier := store.FetchData(Decoded(root), Decoded([queen]), Decoded(RelationIndex([record])),
                                      FetchFailed("not needed"), FetchFailed("not needed"));
    second, retrieved := store.FetchData(Decoded(root), Decoded([queen]), FetchFailed("relation unreachable"),
                                         Decoded(LocationIndex([LocationRecord(1, ["paris-france"])])),
                                         Decoded(DateIndex([DateRecord(1, ["*", "02-01-2020"])])));
    assert store.relations == RelationIndex([record]);
    summary := store.CreateArtistSummary(queen);
    assert LastRelation(store.relations.index, 1) == Some(record);
    RelationConcertsSingle(summary.concerts, "london-uk", ["01-01-2020"]);
    FormatLondon();
  }
}
