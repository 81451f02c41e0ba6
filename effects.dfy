/** The effects a check has on the world outside it, in the order it attempts
    them. The record store and the chat each append the effect they perform to one
    shared log, so the log records which effects happened and in what order. */
module Effects {
  import opened Inventory

  /** How a write of the record file ends. `fs.writeFile` first opens the file
      for writing, which empties it, then writes the text and closes the file;
      `saveRecord` then logs that it is done. Only `Written` is a save that
      returns normally. */
  datatype WriteOutcome =
    | Written       // the whole text was written
    | Refused       // opening the file failed, so the file is untouched
    | Interrupted   // the write failed after the file was emptied, leaving at most part of the text
    | Unconfirmed   // the whole text was written, but `saveRecord` still threw: closing the
                    // file failed, or the log line after the write did

  /** An effect a check attempts, and how it ended. */
  datatype Step =
    | SaveAttempt(items: Snapshot, write: WriteOutcome)
    | SendAttempt(text: string, ok: bool)

  /** The effects attempted so far, oldest first. */
  class Log {
    ghost var steps: seq<Step>

    constructor ()
      ensures steps == []
    {
      steps := [];
    }
  }
}
