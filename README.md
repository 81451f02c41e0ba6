# Inventory check of pnp-scraper-notifier, modelled in Dafny

`pnp-scraper-notifier.js` watches one vehicle-inventory search on a salvage-yard
site. Each run does the following:

1. It scrapes the result table.
2. It compares the scrape with the inventory the previous run recorded in
   `inventory_record.json`.
3. If rows with unseen ids turned up, it overwrites the record with the whole
   scrape, then sends one Telegram message listing the new rows.

This project models the core of one such run and proves what the run depends on.

- `inventory.dfy`: an inventory row (`Item`), a snapshot (`seq<Item>`), the set of
  its ids, and the failures a run can meet.
- `differ.dfy`: the new-row filter `current.filter(e => !previous.some(p => p.id === e.id))`,
  as the recursive functions `HasId` and `NewEntries`. The lemmas say:
  - which rows the filter keeps, in what order, and how often;
  - what it does when the record or the scrape is empty;
  - that a snapshot diffed against itself yields nothing.
- `strings.dfy`: printing a count in base 10, and `Array.prototype.join` on one
  separator character. Each comes with the inverse that reads the text back:
  parsing the digits, and `Split`.
- `notification.dfy`: the message text, a header stating the number of new rows,
  then one line per new row, joined by line breaks.
- `effects.dfy`: the effects a run has outside itself (`SaveAttempt`, `SendAttempt`).
  Also the shared `Log` to which the record store and the chat append each effect
  they perform.
- `record_store.dfy`: `loadRecord` and `saveRecord` as a class `Store`. Its field is
  the record file: absent, holding a snapshot, or unreadable.
- `telegram.dfy`: `sendTelegramMessage` as a class `Chat`. Its field lists the
  delivered messages.
- `check_cycle.dfy`: `main`.
  - `Cycle` and `Publish` are functions giving the effects one run attempts, in
    order, and how the run ends.
  - `Check` (the `try` block) and `RunOnce` (`main`) perform the run on a `Store`
    and a `Chat`. Together with `PublishNew` (the part after the diff), they are
    proved to append to the log exactly the effects `Cycle` lists, in the same
    order. So the method itself is proved to save before it sends, and never to
    send after a failed save.

Some collaborators of the run are outside the model, so their outcomes are
parameters:
- what the scraper returned (`None` when it threw);
- how the record write ends;
- whether Telegram accepts the message.

A run never throws past `main`, as long as the log call in `main`'s catch block
(pnp-scraper-notifier.js:163) itself succeeds (see "## Left out"). Its `Outcome`
is one of two kinds:
- the path that logs "Inventory check completed": `NoNewEntries` or `Notified`;
- the catch block at pnp-scraper-notifier.js:162-164: `Failed(error)`.

What the code does, as modelled:
- `loadRecord` catches only ENOENT, which gives the empty record. Any other read
  error, and a JSON parse error, is passed on and ends the run in `main`'s catch
  block.
- A failed Telegram send is also caught only by `main`. The run ends as
  `Failed(SendFailed)`, never logs that the check completed, and keeps the record
  it has just saved.
- `saveRecord` overwrites the file in place with `fs.writeFile`. Opening the file
  for writing empties it, then the text is written, the file is closed and a log
  line follows. So a save can end in four ways:
  - `Written`: the save returns, and the file holds the new scrape.
  - `Refused`: opening failed, and the file is untouched.
  - `Interrupted`: the write failed after the file was emptied. The file holds a
    proper prefix of the JSON text, which no later `JSON.parse` accepts.
  - `Unconfirmed`: the whole text landed, but closing the file or the log line at
    pnp-scraper-notifier.js:108 failed, so `saveRecord` still threw (:109-111).
  Only `Written` lets the run go on to the message. Two consequences follow:
  - After an interrupted write, every later run fails at `loadRecord` until the
    file is repaired by hand (`InterruptedSaveBlocksLaterChecks`).
  - After an unconfirmed write, the new rows are recorded but never announced: the
    next run of the same scrape finds nothing new (`UnconfirmedSaveLosesNotification`).
- Each message line ends in `Row: undefined`. The template reads `entry.row`, but
  the scraper never sets a `row` field (pnp-scraper-notifier.js:59-67), so
  JavaScript prints the undefined value. The model keeps this text as the constant
  `RowText`.

## Model

| member | source | states |
|---|---|---|
| `Differ.HasId` | pnp-scraper-notifier.js:143 | `previous.some(p => p.id === id)` holds exactly when `id` is among the ids of `previous` |
| `Differ.NewEntries` | pnp-scraper-notifier.js:142-144 | the new rows are no more than the current rows, and each is a current row whose id is not recorded |
| `Differ.NewEntriesMembership` | pnp-scraper-notifier.js:142-144 | a row is new if and only if it is in the current snapshot and its id is not in the previous one |
| `Differ.NewEntriesMultiplicity` | pnp-scraper-notifier.js:142-144 | a row with an unrecorded id occurs as often among the new rows as in the scrape; a row with a recorded id does not occur at all |
| `Differ.NewEntriesIsSubsequence` | pnp-scraper-notifier.js:142-144 | the new rows are a subsequence of the scrape, so they keep the scrape's order |
| `Differ.OnlyIdsMatter` | pnp-scraper-notifier.js:143 | two records with the same ids give the same new rows; only `id` is compared |
| `Differ.EmptyPreviousKeepsAll` | pnp-scraper-notifier.js:142-144 | against an empty record (the first-run case) every scraped row is new |
| `Differ.NothingNewIffKnown` | pnp-scraper-notifier.js:142-146 | there are no new rows if and only if every scraped id is already recorded |
| `Differ.SelfDiffIsEmpty` | pnp-scraper-notifier.js:142-144 | a snapshot diffed against itself has no new rows |
| `Strings.Decimal` | pnp-scraper-notifier.js:152 | `${n}` prints a count as a non-empty string of decimal digits with no leading zero |
| `Strings.DecimalRoundTrip` | pnp-scraper-notifier.js:152 | reading the printed count back gives the count |
| `Strings.Join` | pnp-scraper-notifier.js:153 | `.join('\n')` starts with the first line, gives the empty string for no lines, and puts exactly one separator between each two lines that hold none of their own |
| `Strings.Split` | pnp-scraper-notifier.js:153 | the source never splits; `Split` is the inverse used to read the `join` back. It gives at least one piece, and no piece contains the separator |
| `Strings.SplitJoin` | pnp-scraper-notifier.js:153 | `join` followed by `Split` on a separator the lines do not contain gives back the lines |
| `Strings.SplitAfterHeader` | pnp-scraper-notifier.js:152-153 | a first line, a separator and joined lines split back into the first line followed by the lines |
| `Notification.Header` | pnp-scraper-notifier.js:152 | the header starts with its fixed prefix and ends with its fixed suffix; the number printed between them reads back as `newEntries.length`; the header holds no line break |
| `Notification.Line` | pnp-scraper-notifier.js:153 | the line shows the row's date added, year and colour, each right after its label, and ends with the row label and text; it holds no line break unless one of those fields holds one |
| `Notification.Lines` | pnp-scraper-notifier.js:153 | `newEntries.map(...)` gives one line per new row, the i-th line for the i-th row |
| `Notification.LinesAreSingle` | pnp-scraper-notifier.js:153 | the lines of rows whose shown fields hold no line break hold none either |
| `Notification.HeaderThenLines` | pnp-scraper-notifier.js:152-153 | a header, a line break and the joined row lines read back as the header followed by the row lines |
| `Notification.Message` | pnp-scraper-notifier.js:152-153 | the message always starts with the count header and a line break; when no shown field of a new row holds a line break, reading it line by line gives the header, then exactly one line per new row, in the new rows' order |
| `RecordStore.LoadResult` | pnp-scraper-notifier.js:85-98 | only an unreadable file is an error, `RecordUnreadable`; a file that loads gives its stored rows, or none when it is absent |
| `RecordStore.AfterWrite` | pnp-scraper-notifier.js:104-113 | after a complete write, and after one whose text all landed before `saveRecord` threw, the record loads back as exactly the written rows; after a refused write it loads as before; after an interrupted write it no longer loads |
| `RecordStore.Store.Load` | pnp-scraper-notifier.js:85-98 | an absent file (ENOENT) loads as the empty record, an unreadable file as the error `RecordUnreadable`, a stored file as its rows |
| `RecordStore.Store.Save` | pnp-scraper-notifier.js:104-113 | the save reports success only for a complete write, and the file becomes what the write left. The rows then load back unchanged; after a failed save the file is as it was, unreadable, or the rows. The attempt is appended to the log |
| `Telegram.Chat.Send` | pnp-scraper-notifier.js:119-128 | a delivered message is appended to the chat, and a failed send is reported and adds nothing. The attempt is appended to the log |
| `CheckCycle.Cycle` | pnp-scraper-notifier.js:134-160 | one run attempts at most two effects; a failed scrape or an unreadable record ends it as a failure with none; a notified run announces at least one row |
| `CheckCycle.Publish` | pnp-scraper-notifier.js:146-158 | the run reports nothing new exactly when no row is new. Every save writes the whole scrape. A send is attempted only right after a complete save of that scrape, and carries the message about the new rows. A notified run reports their number |
| `CheckCycle.NewRowsAreSavedThenAnnounced` | pnp-scraper-notifier.js:146-158 | with new rows, the record ends as the write of the whole scrape left it, whatever the send does; `Message(added)` is delivered exactly when the write completes and the send goes through, and the check ends `Notified(|added|)` exactly then |
| `CheckCycle.CycleEffects` | pnp-scraper-notifier.js:146-158 | a run with no effect changes nothing. A run with one effect was a save that failed and left only that write's trace on the file. A run with two saved the scrape completely, then delivered the message if the send succeeded |
| `CheckCycle.PublishEffects` | pnp-scraper-notifier.js:146-158 | after the diff, the record is what the write of the whole scrape left (untouched when nothing is new), and the message is delivered exactly when the run ends notified |
| `CheckCycle.FetchOrLoadFailureIsInert` | pnp-scraper-notifier.js:138-141 | a failed scrape or an unreadable record ends the run as a failure before anything is written or sent |
| `CheckCycle.NothingNewIsNoOp` | pnp-scraper-notifier.js:146-158 | a run reports no new rows if and only if scrape and record load and every scraped id is recorded; it then writes and sends nothing |
| `CheckCycle.SavesWholeSnapshot` | pnp-scraper-notifier.js:149 | every save writes the whole scrape, not the new rows. Afterwards the record is untouched, exactly the scrape, or unreadable after an interrupted write |
| `CheckCycle.SaveBeforeSend` | pnp-scraper-notifier.js:149-155 | a send is attempted only right after a complete save, never after a failed one, and a run attempts at most one save and one send |
| `CheckCycle.SendFailureKeepsRecord` | pnp-scraper-notifier.js:149-164 | a send failure leaves the record holding the new scrape with nothing delivered. A save failure sends nothing, and leaves the record untouched (refused write), unreadable (interrupted write), or holding the scrape (unconfirmed write) |
| `CheckCycle.InterruptedSaveBlocksLaterChecks` | pnp-scraper-notifier.js:88-96 | after an interrupted save the record is unreadable, and every later run fails at `loadRecord` without writing or sending anything |
| `CheckCycle.UnconfirmedSaveLosesNotification` | pnp-scraper-notifier.js:104-113 | a save whose text all landed but which threw ends a run that had new rows with nothing sent and the scrape recorded, and the next run of the same scrape finds nothing new, so those rows are never announced |
| `CheckCycle.NotificationAnnouncesNewEntries` | pnp-scraper-notifier.js:141-155 | a run ends notified if and only if the scrape and the record load, some rows are new, the write completes and the send goes through. It then delivered exactly one message, built from the new rows, whose count it reports, and saved the scrape. Any other run delivered nothing |
| `CheckCycle.FirstRunAnnouncesAll` | pnp-scraper-notifier.js:91-94 | with no record yet, a non-empty scrape is saved whole and, if the write completes, the message lists every row of it |
| `CheckCycle.PartiallyNewScrape` | pnp-scraper-notifier.js:142-155 | record holds row 1, the scrape lists rows 1 and 2: both rows are saved and the message announces row 2 alone, with count 1 |
| `CheckCycle.SecondCheckIsQuiet` | pnp-scraper-notifier.js:142-158 | once a run has settled the record, a second run of the same scrape finds nothing new and neither writes nor sends, whatever the first message's fate |
| `CheckCycle.Check` | pnp-scraper-notifier.js:134-160 | the `try` block appends to the log exactly the effects `Cycle` lists, in its order, and ends as `Cycle` says; the record and the chat are what those effects leave |
| `CheckCycle.RunOnce` | pnp-scraper-notifier.js:133-165 | `main` performs exactly `Cycle`'s effects in order. With new rows, a complete write and an accepted send, it ends notified, delivers `Message(added)` and records the scrape. A failed scrape or unreadable record changes nothing. After a failed save the record is as that write left it. Only a notified run sends, and a send failure keeps the saved scrape |
| `CheckCycle.PublishNew` | pnp-scraper-notifier.js:146-158 | after the diff, the method appends exactly `Publish`'s effects in order: a save of the whole scrape when there are new rows, and a send only after a complete save. The record is what that write left, and a message is added only when the run ends notified |
| `CheckCycle.RunTwice` | pnp-scraper-notifier.js:133-168 | two runs of an unchanged scrape: once the first has settled the record, the second reports no new rows and performs no effect, so the pair delivers at most one message |

## Left out

- Scraping with Puppeteer (pnp-scraper-notifier.js:40-79) is browser automation over a live site. The run takes its result as an input (`Option<Snapshot>`, `None` when it threw).
- The Telegram client (pnp-scraper-notifier.js:34, 119-128) is a foreign network call. It is modelled only as a delivered/failed outcome.
- File I/O and JSON (pnp-scraper-notifier.js:88-89, 107): the record is the snapshot it holds, and `JSON.parse(JSON.stringify(x))` is taken to give back `x`. The model does not verify JSON encoding. Nor does it check that a proper prefix of the JSON text fails to parse; it states this instead.
- Timestamped logging (`logMessage`, pnp-scraper-notifier.js:18-23, and all its calls) is a side effect with wall-clock time and carries no invariant. Only one logging failure is modelled: the one at :108, as part of `Unconfirmed`. The others are left out:
  - one before the write (:106) acts like a refused write;
  - one after the Telegram call (:123) ends the run in the catch block although the message was delivered;
  - one in the catch block itself (:163) escapes `main` as a rejected promise, which :168 neither awaits nor catches.
- Start-up configuration is left out: environment variables, the Telegram token and chat-id checks, and `process.exit` (pnp-scraper-notifier.js:3, 8-12, 26-33).
- Notification.Message: apart from its leading header, the message is described line by line only when no new row has a line break in its date added, year or colour. `textContent.trim()` (pnp-scraper-notifier.js:63-66) keeps a line break inside a field, and such a field spreads its row over several lines of the message. The model does not describe that layout.
- Notification.Header and Notification.Line leave out the emoji of the message text (pnp-scraper-notifier.js:152-153). The rest of the wording is kept.
- The `async`/`await` sequencing is modelled as ordinary sequential code, since no two steps of a run overlap. Scheduling of repeated runs is outside the script; `RunTwice` models two runs in a row.
