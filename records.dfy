/** The data model shared by the pipeline: catalog items, inventory records
    (one row of the inventory data frame), the errors the pipeline raises,
    and the mutable inventory table. */
module Records {

  /** A footprint or AOI geometry, held as its GeoJSON text; geometric
      computations on it are supplied from outside as oracle functions. */
  type Geometry = string

  /** pandas timestamps lie between the years 1677 and 2262, so `%Y` always
      prints four digits. */
  type Year = y: int | 1000 <= y <= 9999 witness 2000
  type Month = m: int | 1 <= m <= 12 witness 1
  type DayOfMonth = d: int | 1 <= d <= 31 witness 1
  type SecondOfDay = s: int | 0 <= s < 86400

  datatype Date = Date(year: Year, month: Month, day: DayOfMonth)

  /** An acquisition time, to the second. */
  datatype Timestamp = Timestamp(date: Date, second: SecondOfDay)

  /** A number that grows with the calendar date (gaps between months are harmless). */
  function DayKey(d: Date): int {
    (d.year * 12 + d.month - 1) * 31 + d.day - 1
  }

  /** A number that grows with the timestamp. */
  function TimeKey(t: Timestamp): int {
    DayKey(t.date) * 86400 + t.second
  }

  /** One feature of a catalog search result: the fields `items_to_gdf` reads. */
  datatype CatalogItem = CatalogItem(
    acquired: Timestamp,
    id: string,
    itemType: string,
    thumbnail: string,
    permissions: string,
    geometry: Geometry,
    cloudCover: real)    // as the catalog reports it: a fraction

  /** One row of the inventory frame. The columns filled by later steps
      (`date`, `dove`, the overlaps, `total_score`, `anchor_overlap`) hold
      a default until their step has run. */
  datatype Record = Record(
    timestamp: Timestamp,
    id: string,
    itemType: string,
    thumbnail: string,
    permissions: string,
    footprint: Geometry,
    cloudCover: real,    // percent once `items_to_gdf` has run
    date: string,
    dove: string,
    sceneOverlap: real,
    aoiOverlap: real,
    totalScore: int,
    anchorOverlap: real)

  /** The exceptions the core raises. */
  datatype Error =
    | UnknownItemType(itemType: string)   // KeyError in a lookup table
    | EmptySearch                         // KeyError: a frame built from no items has no columns
    | IncompatibleTools                   // co-register together with composite
    | CompositeUnavailable                // the composite path fails as written
    | NoAnchor                            // no low-cloud record has a positive overlap sum
    | MissingAoi                          // 'clip' requested without an AOI
    | OrderTooLarge(images: nat)          // co-registration of more than 500 images
    | AlreadyOrdered(title: string)       // a successful order of that name exists

  /** An inventory frame that operations update in place. */
  class Table {
    var rows: seq<Record>

    constructor (rows: seq<Record>)
      ensures this.rows == rows
    {
      this.rows := rows;
    }
  }
}
