/** The inventory record file: `loadRecord` and `saveRecord`
    (pnp-scraper-notifier.js:85-113). The JSON text is abstracted to the snapshot it
    holds; a file that exists but cannot be read or parsed is `Unreadable`. */
module RecordStore {
  import opened Inventory
  import opened Effects

  datatype RecordFile =
    | Absent                    // reading it fails with ENOENT
    | Stored(items: Snapshot)   // reading and parsing it yields these rows
    | Unreadable                // reading or parsing it fails for any other reason

  /** What `loadRecord` gives for a file: only an unreadable file is an error, and
      a file that loads gives its stored rows, or none when it is absent. */
  function LoadResult(file: RecordFile): (r: Result<Snapshot>)
    ensures r.Err? <==> file.Unreadable?
    ensures r.Err? ==> r.error == RecordUnreadable
    ensures r.Ok? ==> r.value == if file.Stored? then file.items else []
  {
    match file
    case Absent => Ok([])
    case Stored(items) => Ok(items)
    case Unreadable => Err(RecordUnreadable)
  }

  /** The record file after writing `items` ended as `write`. A write cut off
      after the file was emptied leaves a proper prefix of the JSON text, and no
      proper prefix of a JSON array parses; a write whose text all landed holds
      the rows even if `saveRecord` then threw. */
  function AfterWrite(file: RecordFile, items: Snapshot, write: WriteOutcome): (after: RecordFile)
    ensures write == Written || write == Unconfirmed ==> LoadResult(after) == Ok(items)
    ensures write == Refused ==> LoadResult(after) == LoadResult(file)
    ensures write == Interrupted ==> LoadResult(after) == Err(RecordUnreadable)
  {
    match write
    case Written => Stored(items)
    case Refused => file
    case Interrupted => Unreadable
    case Unconfirmed => Stored(items)
  }

  class Store {
    var file: RecordFile

    constructor (file: RecordFile)
      ensures this.file == file
    {
      this.file := file;
    }

    /** `loadRecord`: only ENOENT is caught (as the empty record); every other
        failure, a JSON parse error included, is passed on. */
    method Load() returns (r: Result<Snapshot>)
      ensures file.Absent? ==> r == Ok([])
      ensures file.Unreadable? ==> r == Err(RecordUnreadable)
      ensures file.Stored? ==> r == Ok(file.items)
    {
      match file {
        case Absent =>
          r := Ok([]);
        case Stored(items) =>
          r := Ok(items);
        case Unreadable =>
          r := Err(RecordUnreadable);
      }
    }

    /** `saveRecord`: overwrites the whole file with the given rows. How the
        write ends comes from outside; a failed write is passed on. The attempt
        is appended to `log`. */
    method Save(items: Snapshot, write: WriteOutcome, ghost log: Log) returns (ok: bool)
      modifies this, log
      ensures ok <==> write == Written
      ensures file == AfterWrite(old(file), items, write)
      ensures ok ==> LoadResult(file) == Ok(items)
      ensures !ok ==> file == old(file) || file == Unreadable || file == Stored(items)
      ensures log.steps == old(log.steps) + [SaveAttempt(items, write)]
    {
      ok := write == Written;
      match write {
        case Written =>
          file := Stored(items);
        case Refused =>
        case Interrupted =>
          file := Unreadable;
        case Unconfirmed =>
          file := Stored(items);
      }
      log.steps := log.steps + [SaveAttempt(items, write)];
    }
  }
}
