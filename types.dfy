/**
 * The records that the reconciliation works on: what the remote API's
 * artists, relation, locations and dates resources decode to, and the
 * summary built for one artist page.
 */
module Types {

  datatype Option<T> = None | Some(value: T)

  datatype Artist = Artist(
    id: int,
    image: string,
    name: string,
    members: seq<string>,
    creationDate: int,
    firstAlbum: string)

  /** One entry of the relation resource: location key to the dates played there. */
  datatype Relation = Relation(id: int, datesLocations: map<string, seq<string>>)

  datatype RelationIndex = RelationIndex(index: seq<Relation>)

  /** Raw location keys of one artist, meant to line up with its date groups. */
  datatype LocationRecord = LocationRecord(id: int, locations: seq<string>)

  datatype LocationIndex = LocationIndex(index: seq<LocationRecord>)

  /** Raw dates of one artist; a `*` marks the start of the next location's dates. */
  datatype DateRecord = DateRecord(id: int, dates: seq<string>)

  datatype DateIndex = DateIndex(index: seq<DateRecord>)

  /** The root index of the API: the addresses of the four resources. */
  datatype Groupies = Groupies(artists: string, locations: string, dates: string, relation: string)

  datatype Concert = Concert(location: string, dates: seq<string>)

  datatype ArtistSummary = ArtistSummary(
    id: int,
    name: string,
    image: string,
    creationDate: int,
    firstAlbum: string,
    members: seq<string>,
    concerts: seq<Concert>)

  /** The status sent back by a data fetch: an HTTP code and a message. */
  datatype Error = Error(code: int, message: string)
}
