/** The data the inventory check works on: one scraped vehicle row, a snapshot of
    rows, and the outcome types shared by the record store and the check cycle. */
module Inventory {

  /** One row of the inventory table, as the scraper builds it from the seven
      table cells (pnp-scraper-notifier.js:59-67). Only `id` is ever compared. */
  datatype Item = Item(
    id: string,
    make: string,
    model: string,
    year: string,
    color: string,
    location: string,
    dateAdded: string)

  /** All rows visible at one point in time, in the order the page lists them. */
  type Snapshot = seq<Item>

  /** The set of ids that occur in a snapshot. */
  function Ids(s: Snapshot): set<string>
  {
    set e | e in s :: e.id
  }

  datatype Option<T> = None | Some(value: T)

  /** The failures a check cycle can run into; every one of them is caught by the
      cycle, none escapes it. */
  datatype CheckError =
    | ScrapeFailed        // the scraper threw
    | RecordUnreadable    // reading or parsing an existing record threw
    | RecordWriteFailed   // writing the record threw
    | SendFailed          // the chat message could not be delivered

  datatype Result<T> = Ok(value: T) | Err(error: CheckError)
}
