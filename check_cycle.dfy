/** One inventory check, `main` (pnp-scraper-notifier.js:133-165): scrape, load the
    record, find the new rows, and only if there are some, save the whole scrape
    and then send one message. Every failure ends the check in the catch block at
    pnp-scraper-notifier.js:162-164; none escapes.

    `Cycle` says what one check does, as the effects it attempts in order and how
    it ends; `RunOnce` performs it on a record store and a chat. */
module CheckCycle {
  import opened Inventory
  import opened Differ
  import opened Notification
  import opened Effects
  import opened RecordStore
  import opened Telegram

  /** How `main` ends: by logging that the check completed (nothing new, or the
      message delivered), or in its catch block with the failure that got there. */
  datatype Outcome =
    | NoNewEntries
    | Notified(count: nat)
    | Failed(error: CheckError)

  /** The effects a check attempted, in order, and how it ended. */
  datatype Run = Run(steps: seq<Step>, outcome: Outcome)

  /** One check, given the record file as it is, what the scraper returned (None:
      it threw), how the record write ends and whether the message send goes
      through. A failed scrape or an unreadable record ends it before any effect. */
  function Cycle(file: RecordFile, scraped: Option<Snapshot>, write: WriteOutcome, sendOk: bool): (r: Run)
    ensures scraped.None? || file.Unreadable? ==> r.steps == [] && r.outcome.Failed?
    ensures |r.steps| <= 2
    ensures r.outcome.Notified? ==> r.outcome.count > 0
  {
    match scraped
    case None => Run([], Failed(ScrapeFailed))
    case Some(current) =>
      match LoadResult(file)
      case Err(e) => Run([], Failed(e))
      case Ok(previous) => Publish(current, NewEntries(current, previous), write, sendOk)
  }

  /** The rest of a check once the new rows are known (pnp-scraper-notifier.js:146-158):
      nothing when there are none; otherwise save the whole scrape and, only if
      that worked, send the message about the new rows. */
  function Publish(current: Snapshot, added: Snapshot, write: WriteOutcome, sendOk: bool): (r: Run)
    ensures r.outcome == NoNewEntries <==> added == []
    ensures r.outcome.Notified? ==> r.outcome.count == |added|
    ensures forall i :: 0 <= i < |r.steps| && r.steps[i].SaveAttempt? ==> r.steps[i].items == current
    ensures forall i :: 0 <= i < |r.steps| && r.steps[i].SendAttempt? ==>
              i > 0 && r.steps[i - 1] == SaveAttempt(current, Written) && r.steps[i].text == Message(added)
  {
    if |added| == 0 then Run([], NoNewEntries)
    else if write != Written then Run([SaveAttempt(current, write)], Failed(RecordWriteFailed))
    else
      Run([SaveAttempt(current, Written), SendAttempt(Message(added), sendOk)],
          if sendOk then Notified(|added|) else Failed(SendFailed))
  }

  /** With new rows, the record ends as the write of the whole scrape left it;
      the message about the new rows is delivered exactly when that write
      completes and the send goes through, and only then does the check end
      notified. */
  lemma NewRowsAreSavedThenAnnounced(file: RecordFile, current: Snapshot, added: Snapshot, write: WriteOutcome, sendOk: bool)
    requires added != []
    ensures var run := Publish(current, added, write, sendOk);
            FileAfter(file, run.steps) == AfterWrite(file, current, write) &&
            Delivered(run.steps) == (if write == Written && sendOk then [Message(added)] else []) &&
            (run.outcome == Notified(|added|) <==> write == Written && sendOk)
  {
    PublishEffects(file, current, added, write, sendOk);
  }

  /** The record file after one effect: a save leaves it as its write ended, a
      send does not touch it. */
  function FileAfterStep(file: RecordFile, step: Step): RecordFile
  {
    if step.SaveAttempt? then AfterWrite(file, step.items, step.write) else file
  }

  /** The record file once the given effects have happened, one after another. */
  function FileAfter(file: RecordFile, steps: seq<Step>): RecordFile
    decreases |steps|
  {
    if steps == [] then file else FileAfter(FileAfterStep(file, steps[0]), steps[1..])
  }

  /** The message one effect delivered, if any. */
  function DeliveredBy(step: Step): seq<string>
  {
    if step.SendAttempt? && step.ok then [step.text] else []
  }

  /** The messages the given effects delivered, in order. */
  function Delivered(steps: seq<Step>): seq<string>
  {
    if steps == [] then [] else DeliveredBy(steps[0]) + Delivered(steps[1..])
  }

  /** Effects applied one after another: none, one, or two in a row. */
  lemma ShortEffects(file: RecordFile, steps: seq<Step>)
    requires |steps| <= 2
    ensures |steps| == 0 ==> FileAfter(file, steps) == file && Delivered(steps) == []
    ensures |steps| == 1 ==> FileAfter(file, steps) == FileAfterStep(file, steps[0]) &&
                             Delivered(steps) == DeliveredBy(steps[0])
    ensures |steps| == 2 ==> FileAfter(file, steps) == FileAfterStep(FileAfterStep(file, steps[0]), steps[1]) &&
                             Delivered(steps) == DeliveredBy(steps[0]) + DeliveredBy(steps[1])
  {
    if |steps| == 1 {
      assert steps[1..] == [];
    } else if |steps| == 2 {
      var rest := steps[1..];
      assert rest == [steps[1]] && rest[1..] == [];
      var mid := FileAfterStep(file, steps[0]);
      assert FileAfter(file, steps) == FileAfter(mid, rest) == FileAfter(FileAfterStep(mid, steps[1]), []);
      assert Delivered(rest) == DeliveredBy(steps[1]) + Delivered([]);
    }
  }

  /** What the attempted effects of a check amount to: with no step nothing
      changes; with one, a failed save, only that write's trace is left on the
      file; with a save and a send, the record is the saved rows and the message
      is delivered if the send succeeded. */
  lemma CycleEffects(file: RecordFile, scraped: Option<Snapshot>, write: WriteOutcome, sendOk: bool)
    ensures var steps := Cycle(file, scraped, write, sendOk).steps;
            |steps| == 0 ==> FileAfter(file, steps) == file && Delivered(steps) == []
    ensures var steps := Cycle(file, scraped, write, sendOk).steps;
            |steps| == 1 ==>
              steps[0] == SaveAttempt(steps[0].items, write) && write != Written &&
              FileAfter(file, steps) == AfterWrite(file, steps[0].items, write) && Delivered(steps) == []
    ensures var steps := Cycle(file, scraped, write, sendOk).steps;
            |steps| == 2 ==>
              steps[0] == SaveAttempt(steps[0].items, Written) && FileAfter(file, steps) == Stored(steps[0].items) &&
              steps[1].SendAttempt? && Delivered(steps) == if steps[1].ok then [steps[1].text] else []
  {
    ShortEffects(file, Cycle(file, scraped, write, sendOk).steps);
  }

  /** What publishing amounts to: the record is left as the write of the whole
      scrape ended, if there was anything new to save, and the one message is
      delivered exactly when the check ends notified. */
  lemma PublishEffects(file: RecordFile, current: Snapshot, added: Snapshot, write: WriteOutcome, sendOk: bool)
    ensures var run := Publish(current, added, write, sendOk);
            FileAfter(file, run.steps) == (if |added| > 0 then AfterWrite(file, current, write) else file) &&
            Delivered(run.steps) == if run.outcome.Notified? then [Message(added)] else []
  {
    ShortEffects(file, Publish(current, added, write, sendOk).steps);
  }

  /** The check got past the record: it found nothing new, or it saved the
      scrape (whatever then became of the message). */
  predicate RecordSettled(outcome: Outcome)
  {
    outcome.NoNewEntries? || outcome.Notified? || outcome == Failed(SendFailed)
  }

  /** A failed scrape, or a record that exists but cannot be read, ends the check
      with a failure before anything is written or sent. */
  lemma FetchOrLoadFailureIsInert(file: RecordFile, scraped: Option<Snapshot>, write: WriteOutcome, sendOk: bool)
    requires scraped.None? || file.Unreadable?
    ensures var run := Cycle(file, scraped, write, sendOk);
            run.steps == [] &&
            run.outcome == (if scraped.None? then Failed(ScrapeFailed) else Failed(RecordUnreadable)) &&
            FileAfter(file, run.steps) == file && Delivered(run.steps) == []
  {
    CycleEffects(file, scraped, write, sendOk);
  }

  /** The check does nothing and reports no new rows exactly when the scrape and
      the record both load and every scraped id is already in the record. */
  lemma NothingNewIsNoOp(file: RecordFile, scraped: Option<Snapshot>, write: WriteOutcome, sendOk: bool)
    ensures var run := Cycle(file, scraped, write, sendOk);
            run.outcome == NoNewEntries <==>
              scraped.Some? && LoadResult(file).Ok? && Ids(scraped.value) <= Ids(LoadResult(file).value)
    ensures Cycle(file, scraped, write, sendOk).outcome == NoNewEntries ==>
              Cycle(file, scraped, write, sendOk).steps == []
  {
    if scraped.Some? && LoadResult(file).Ok? {
      NothingNewIffKnown(scraped.value, LoadResult(file).value);
    }
  }

  /** A save always writes the whole scrape, never the new rows alone, so the
      record afterwards is untouched, exactly the scrape, or unreadable after a
      write cut off part-way. */
  lemma SavesWholeSnapshot(file: RecordFile, scraped: Option<Snapshot>, write: WriteOutcome, sendOk: bool)
    ensures var steps := Cycle(file, scraped, write, sendOk).steps;
            forall i :: 0 <= i < |steps| && steps[i].SaveAttempt? ==> scraped == Some(steps[i].items)
    ensures var after := FileAfter(file, Cycle(file, scraped, write, sendOk).steps);
            after == file || (scraped.Some? && after == Stored(scraped.value)) ||
            (write == Interrupted && after == Unreadable)
  {
    CycleEffects(file, scraped, write, sendOk);
  }

  /** The message is sent only after the record has been written successfully, a
      failed write stops the check before any message, and a check attempts at
      most one save and one send. */
  lemma SaveBeforeSend(file: RecordFile, scraped: Option<Snapshot>, write: WriteOutcome, sendOk: bool)
    ensures var steps := Cycle(file, scraped, write, sendOk).steps;
            forall i :: 0 <= i < |steps| && steps[i].SendAttempt? ==>
              i > 0 && steps[i - 1].SaveAttempt? && steps[i - 1].write == Written
    ensures var steps := Cycle(file, scraped, write, sendOk).steps;
            forall i, j :: 0 <= i < |steps| && 0 <= j < |steps| && steps[i].SaveAttempt? && steps[i].write != Written ==>
              !steps[j].SendAttempt?
    ensures |Cycle(file, scraped, write, sendOk).steps| <= 2
  {
  }

  /** When sending fails after the save, the record keeps the new scrape and no
      message counts as delivered. When saving fails, nothing is sent, and the
      record is untouched if the file could not be opened, unreadable if the write
      was cut off after emptying it, and the new scrape if the text all landed. */
  lemma SendFailureKeepsRecord(file: RecordFile, scraped: Option<Snapshot>, write: WriteOutcome, sendOk: bool)
    ensures var run := Cycle(file, scraped, write, sendOk);
            run.outcome == Failed(SendFailed) ==>
              scraped.Some? && FileAfter(file, run.steps) == Stored(scraped.value) && Delivered(run.steps) == []
    ensures var run := Cycle(file, scraped, write, sendOk);
            run.outcome == Failed(RecordWriteFailed) ==>
              scraped.Some? && write != Written &&
              FileAfter(file, run.steps) == (if write == Refused then file
                                             else if write == Interrupted then Unreadable
                                             else Stored(scraped.value)) &&
              Delivered(run.steps) == []
  {
    CycleEffects(file, scraped, write, sendOk);
  }

  /** A save cut off part-way leaves a record no later check can read: every
      later check fails before writing or sending anything, until the file is
      repaired by hand. */
  lemma InterruptedSaveBlocksLaterChecks(file: RecordFile, scraped: Option<Snapshot>, sendOk: bool,
                                         later: Option<Snapshot>, write2: WriteOutcome, sendOk2: bool)
    ensures var run := Cycle(file, scraped, Interrupted, sendOk);
            run.outcome == Failed(RecordWriteFailed) ==>
              var file2 := FileAfter(file, run.steps);
              file2 == Unreadable &&
              Cycle(file2, later, write2, sendOk2).steps == [] && Cycle(file2, later, write2, sendOk2).outcome.Failed?
  {
    CycleEffects(file, scraped, Interrupted, sendOk);
  }

  /** A save whose text all landed but which still threw ends the check before
      the message, with the new scrape recorded: the next check of the same
      scrape finds nothing new, so the new rows are never announced. */
  lemma {:induction false} UnconfirmedSaveLosesNotification(file: RecordFile, scraped: Snapshot, sendOk: bool,
                                                            write2: WriteOutcome, sendOk2: bool)
    ensures var run := Cycle(file, Some(scraped), Unconfirmed, sendOk);
            run.outcome == Failed(RecordWriteFailed) ==>
              LoadResult(file).Ok? && NewEntries(scraped, LoadResult(file).value) != [] &&
              Delivered(run.steps) == [] && FileAfter(file, run.steps) == Stored(scraped) &&
              Cycle(FileAfter(file, run.steps), Some(scraped), write2, sendOk2) == Run([], NoNewEntries)
  {
    var run := Cycle(file, Some(scraped), Unconfirmed, sendOk);
    CycleEffects(file, Some(scraped), Unconfirmed, sendOk);
    if run.outcome == Failed(RecordWriteFailed) {
      assert FileAfter(file, run.steps) == Stored(scraped);
      SelfDiffIsEmpty(scraped);
    }
  }

  /** A check ends notified exactly when the scrape and the record load, some
      rows are new, the write completes and the send goes through; it then
      delivers exactly one message, announcing the new rows and their number,
      and any other check delivers none. */
  lemma NotificationAnnouncesNewEntries(file: RecordFile, scraped: Option<Snapshot>, write: WriteOutcome, sendOk: bool)
    ensures var run := Cycle(file, scraped, write, sendOk);
            run.outcome.Notified? ==>
              scraped.Some? && LoadResult(file).Ok? &&
              var added := NewEntries(scraped.value, LoadResult(file).value);
              added != [] && run.outcome.count == |added| &&
              Delivered(run.steps) == [Message(added)] &&
              FileAfter(file, run.steps) == Stored(scraped.value)
    ensures var run := Cycle(file, scraped, write, sendOk);
            !run.outcome.Notified? ==> Delivered(run.steps) == []
    ensures Cycle(file, scraped, write, sendOk).outcome.Notified? <==>
              scraped.Some? && LoadResult(file).Ok? &&
              NewEntries(scraped.value, LoadResult(file).value) != [] && write == Written && sendOk
  {
    CycleEffects(file, scraped, write, sendOk);
  }

  /** First run: with no record yet, a non-empty scrape is saved and every row of
      it is announced. */
  lemma FirstRunAnnouncesAll(scraped: Snapshot, write: WriteOutcome, sendOk: bool)
    requires scraped != []
    ensures Cycle(Absent, Some(scraped), write, sendOk).steps ==
            if write == Written then [SaveAttempt(scraped, Written), SendAttempt(Message(scraped), sendOk)]
            else [SaveAttempt(scraped, write)]
  {
    EmptyPreviousKeepsAll(scraped);
  }

  /** A record holding row "1" and a scrape listing rows "1" and "2": the whole
      two-row scrape is saved and the message announces row "2" alone. */
  lemma PartiallyNewScrape(one: Item, two: Item)
    requires one.id == "1" && two.id == "2"
    ensures Cycle(Stored([one]), Some([one, two]), Written, true) ==
            Run([SaveAttempt([one, two], Written), SendAttempt(Message([two]), true)], Notified(1))
  {
    assert [one, two][1..] == [two] && [two][1..] == [];
    assert !HasId([one], two.id) by {
      assert [one][1..] == [];
    }
    assert NewEntries([two], [one]) == [two] + NewEntries([], [one]);
    assert NewEntries([one, two], [one]) == [] + NewEntries([two], [one]);
    assert LoadResult(Stored([one])) == Ok([one]);
    assert Cycle(Stored([one]), Some([one, two]), Written, true) == Publish([one, two], [two], Written, true);
  }

  /** Once a check has settled the record, a second check of an unchanged scrape
      finds nothing new: no write and no message, whatever the first check's
      message did. */
  lemma SecondCheckIsQuiet(file: RecordFile, scraped: Snapshot,
                            write1: WriteOutcome, sendOk1: bool, write2: WriteOutcome, sendOk2: bool)
    requires RecordSettled(Cycle(file, Some(scraped), write1, sendOk1).outcome)
    ensures var file2 := FileAfter(file, Cycle(file, Some(scraped), write1, sendOk1).steps);
            Cycle(file2, Some(scraped), write2, sendOk2) == Run([], NoNewEntries)
  {
    var run := Cycle(file, Some(scraped), write1, sendOk1);
    CycleEffects(file, Some(scraped), write1, sendOk1);
    if run.outcome == NoNewEntries {
      assert FileAfter(file, run.steps) == file;
    } else {
      assert FileAfter(file, run.steps) == Stored(scraped);
      SelfDiffIsEmpty(scraped);
    }
  }

  /** `main`: one check against a record store and a chat, every failure caught.
      The scrape result and how the write and the send end come from outside. */
  method RunOnce(store: Store, chat: Chat, ghost log: Log, scraped: Option<Snapshot>, write: WriteOutcome, sendOk: bool)
    returns (outcome: Outcome)
    modifies store, chat, log
    ensures var run := Cycle(old(store.file), scraped, write, sendOk);
            outcome == run.outcome && log.steps == old(log.steps) + run.steps &&
            store.file == FileAfter(old(store.file), run.steps) &&
            chat.sent == old(chat.sent) + Delivered(run.steps)
    ensures scraped.None? || old(store.file).Unreadable? ==>
              outcome.Failed? && store.file == old(store.file) && chat.sent == old(chat.sent)
    ensures store.file == old(store.file) || (scraped.Some? && store.file == Stored(scraped.value)) ||
            (write == Interrupted && store.file == Unreadable)
    ensures outcome == NoNewEntries ==> store.file == old(store.file)
    ensures outcome == Failed(RecordWriteFailed) ==>
              scraped.Some? && write != Written &&
              store.file == (if write == Refused then old(store.file)
                             else if write == Interrupted then Unreadable
                             else Stored(scraped.value))
    ensures !outcome.Notified? ==> chat.sent == old(chat.sent)
    ensures outcome == Failed(SendFailed) ==> scraped.Some? && store.file == Stored(scraped.value)
    ensures scraped.Some? && LoadResult(old(store.file)).Ok? ==>
              var added := NewEntries(scraped.value, LoadResult(old(store.file)).value);
              added != [] && write == Written && sendOk ==>
                outcome == Notified(|added|) && chat.sent == old(chat.sent) + [Message(added)] &&
                store.file == Stored(scraped.value)
  {
    outcome := Check(store, chat, log, scraped, write, sendOk);
    ghost var file0 := old(store.file);
    if scraped.None? || file0.Unreadable? {
      FetchOrLoadFailureIsInert(file0, scraped, write, sendOk);
    }
    SavesWholeSnapshot(file0, scraped, write, sendOk);
    SendFailureKeepsRecord(file0, scraped, write, sendOk);
    NotificationAnnouncesNewEntries(file0, scraped, write, sendOk);
    NothingNewIsNoOp(file0, scraped, write, sendOk);
  }

  /** The `try` block of `main` (pnp-scraper-notifier.js:134-160): scrape, load
      the record, diff, and publish; a failure ends it at once. The effects it performs, as the store and the
      chat append them to `log`, are exactly those `Cycle` lists, in order. */
  method Check(store: Store, chat: Chat, ghost log: Log, scraped: Option<Snapshot>, write: WriteOutcome, sendOk: bool)
    returns (outcome: Outcome)
    modifies store, chat, log
    ensures var run := Cycle(old(store.file), scraped, write, sendOk);
            outcome == run.outcome && log.steps == old(log.steps) + run.steps &&
            store.file == FileAfter(old(store.file), run.steps) &&
            chat.sent == old(chat.sent) + Delivered(run.steps)
  {
    if scraped.None? {
      outcome := Failed(ScrapeFailed);
    } else {
      var current := scraped.value;
      var previous := store.Load();
      assert previous == LoadResult(store.file);
      if previous.Err? {
        outcome := Failed(previous.error);
      } else {
        var added := NewEntries(current, previous.value);
        PublishEffects(store.file, current, added, write, sendOk);
        outcome := PublishNew(store, chat, log, current, added, write, sendOk);
      }
    }
  }

  /** The part of `main` after the diff (pnp-scraper-notifier.js:146-158): save the
      whole scrape, then send the message, and stop at the first failure. */
  method PublishNew(store: Store, chat: Chat, ghost log: Log, current: Snapshot, added: Snapshot,
                    write: WriteOutcome, sendOk: bool)
    returns (outcome: Outcome)
    modifies store, chat, log
    ensures var run := Publish(current, added, write, sendOk);
            outcome == run.outcome && log.steps == old(log.steps) + run.steps
    ensures store.file == if |added| > 0 then AfterWrite(old(store.file), current, write) else old(store.file)
    ensures chat.sent == if outcome.Notified? then old(chat.sent) + [Message(added)] else old(chat.sent)
  {
    if |added| == 0 {
      outcome := NoNewEntries;
    } else {
      assert write != Written ==>
               Publish(current, added, write, sendOk) == Run([SaveAttempt(current, write)], Failed(RecordWriteFailed));
      assert write == Written ==>
               Publish(current, added, write, sendOk) ==
               Run([SaveAttempt(current, Written), SendAttempt(Message(added), sendOk)],
                   if sendOk then Notified(|added|) else Failed(SendFailed));
      var saved := store.Save(current, write, log);
      if !saved {
        outcome := Failed(RecordWriteFailed);
      } else {
        var sent := chat.Send(Message(added), sendOk, log);
        outcome := if sent then Notified(|added|) else Failed(SendFailed);
      }
    }
  }

  /** Two checks of an unchanged scrape, as a scheduler runs them: once the first
      has settled the record, the second writes nothing and sends nothing, so the
      pair delivers at most one message. */
  method RunTwice(store: Store, chat: Chat, ghost log: Log, scraped: Snapshot,
                  write1: WriteOutcome, sendOk1: bool, write2: WriteOutcome, sendOk2: bool)
    returns (first: Outcome, second: Outcome)
    modifies store, chat, log
    ensures RecordSettled(first) ==> second == NoNewEntries
    ensures RecordSettled(first) ==> |chat.sent| <= |old(chat.sent)| + 1
    ensures RecordSettled(first) ==>
              log.steps == old(log.steps) + Cycle(old(store.file), Some(scraped), write1, sendOk1).steps
  {
    ghost var file0 := store.file;
    first := RunOnce(store, chat, log, Some(scraped), write1, sendOk1);
    ghost var sent1, steps1 := chat.sent, log.steps;
    second := RunOnce(store, chat, log, Some(scraped), write2, sendOk2);
    NotificationAnnouncesNewEntries(file0, Some(scraped), write1, sendOk1);
    if RecordSettled(first) {
      SecondCheckIsQuiet(file0, scraped, write1, sendOk1, write2, sendOk2);
      assert chat.sent == sent1 && log.steps == steps1;
    }
  }
}
