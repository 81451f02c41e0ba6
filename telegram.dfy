/** The chat the notification goes to: `sendTelegramMessage`
    (pnp-scraper-notifier.js:119-128). The transport is abstracted to whether the
    message got through; `sent` lists the messages delivered so far. */
module Telegram {
  import opened Effects

  class Chat {
    var sent: seq<string>

    constructor ()
      ensures sent == []
    {
      sent := [];
    }

    /** Delivers `text` when `delivered` holds; otherwise the failure is passed on
        and nothing is added. The attempt is appended to `log`. */
    method Send(text: string, delivered: bool, ghost log: Log) returns (ok: bool)
      modifies this, log
      ensures ok == delivered
      ensures sent == if ok then old(sent) + [text] else old(sent)
      ensures log.steps == old(log.steps) + [SendAttempt(text, ok)]
    {
      ok := delivered;
      if ok {
        sent := sent + [text];
      }
      log.steps := log.steps + [SendAttempt(text, ok)];
    }
  }
}
