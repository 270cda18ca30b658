/** The record shapes shared by every stage: the closed set of ticket
    providers, the dictionary each parser emits for one event, and a row of
    the `concerts` table. Dates are whole seconds of naive UTC time. */
module Concert {
  import opened Wrappers

  /** Seconds in one day, the unit of every day-based window. */
  const SecondsPerDay: int := 86400

  /** `SourceEnum`: exactly three providers. */
  datatype Source = Yandex | GoStandUp | Timepad

  /** One parser output dictionary: `external_id`, `name`, `date`,
      `tickets_sold`, `tickets_total`, `url`, `source`. Every parser always
      fills `url`. */
  datatype Event = Event(
    externalId: string,
    name: string,
    date: int,
    ticketsSold: int,
    ticketsTotal: int,
    url: string,
    source: Source)

  /** A row of the `concerts` table. `id` is the surrogate primary key; the
      schema puts no uniqueness constraint on `(source, externalId)`. Every
      column except `url` is NOT NULL, hence not optional here. */
  datatype Row = Row(
    id: nat,
    externalId: string,
    name: string,
    date: int,
    ticketsSold: int,
    ticketsTotal: int,
    source: Source,
    url: Option<string>,
    createdAt: int,
    updatedAt: int)

  /** The natural key the upsert matches on. */
  type Key = (Source, string)

  function RowKey(r: Row): Key {
    (r.source, r.externalId)
  }

  function EventKey(e: Event): Key {
    (e.source, e.externalId)
  }
}
