/** What handling a message promises, stated per command over the message
    text, and the ledger and store over any sequence of messages. */
module HandlerLaws {
  import opened Optional
  import opened JsString
  import opened NumberParse
  import opened Bookkeeping
  import opened Report
  import opened Bot

  /** An authorised message is answered by its trimmed text's command. */
  lemma HandleAuthorised(s: State, m: Inbound, now: string)
    requires Authorised(m)
    ensures Handle(s, m, now) == Respond(s, m.remoteJid, TextOf(m), now)
  {
  }

  /** A message without content, one the bot sent itself, or one from a sender
      off the allow-list gets no reply and changes nothing. */
  lemma Dropped(s: State, m: Inbound, now: string)
    requires !Authorised(m)
    ensures Handle(s, m, now) == Step(s, [])
  {
  }

  /** A reply is sent exactly when the message is authorised and its text is
      one of the commands; text that matches none changes nothing. */
  lemma RepliesExactlyOnCommands(s: State, m: Inbound, now: string)
    ensures Handle(s, m, now).sent != [] <==> Authorised(m) && Classify(TextOf(m)) != Ignore
    ensures Authorised(m) && Classify(TextOf(m)) == Ignore ==> Handle(s, m, now) == Step(s, [])
  {
  }

  /** `menu`, `ajuda` and `leoncio`, in any letter case and with any white
      space around them, are answered with the menu alone. */
  lemma MenuWords(s: State, m: Inbound, now: string)
    requires Authorised(m) && IsMenuWord(ToLower(TextOf(m)))
    ensures Handle(s, m, now) == Step(s, [Outgoing(m.remoteJid, Menu)])
  {
    HandleAuthorised(s, m, now);
  }

  /** A `+`/`-` command whose amount is missing or does not parse leaves
      ledger and store as they were and is answered with the format error
      alone. */
  lemma InvalidAmountChangesNothing(s: State, m: Inbound, now: string)
    requires Authorised(m) && StartsWithSign(TextOf(m))
    requires TypedAmount(TextOf(m)).None?
    ensures Handle(s, m, now) == Step(s, [Outgoing(m.remoteJid, InvalidFormat)])
  {
    HandleAuthorised(s, m, now);
  }

  /** A `+`/`-` command with an amount appends exactly one transaction at the
      end of the ledger, earlier ones unchanged, and the store then holds the
      new ledger. The transaction has the command's kind, the typed amount
      with its sign as typed, the typed description (or the placeholder), the
      sender up to its `@` and the current time; the reply repeats kind,
      amount and description. */
  lemma ValidRecordAppends(s: State, m: Inbound, now: string, v: real)
    requires Authorised(m) && StartsWithSign(TextOf(m))
    requires TypedAmount(TextOf(m)) == Some(v)
    ensures var text := TextOf(m);
            var t := Transaction(now, if text[0] == '+' then Entrada else Saida, v,
                                 TypedDescription(text), Author(m.remoteJid));
            var r := Handle(s, m, now);
            && r.state.ledger == s.ledger + [t]
            && r.state.persisted == Some(r.state.ledger)
            && r.sent == [Outgoing(m.remoteJid, Recorded(t.kind, v, t.desc))]
  {
    var text := TextOf(m);
    HandleAuthorised(s, m, now);
    assert Classify(text) == Record;
    assert Respond(s, m.remoteJid, text, now) == RecordCommand(s, m.remoteJid, text, now);
  }

  /** After a one-character word and a space comes the rest of the text. */
  lemma AfterFirstWord(sign: char, rest: string)
    requires sign != ' '
    ensures AfterSpace([sign, ' '] + rest) == Some(rest)
  {
    var text := [sign, ' '] + rest;
    IndexOfIs(text, ' ', 1);
    assert text[2..] == rest;
  }

  /** A word followed by a space and more text splits at that space. */
  lemma WordThenRest(word: string, rest: string)
    requires ' ' !in word
    ensures UpToSpace(word + [' '] + rest) == word
    ensures AfterSpace(word + [' '] + rest) == Some(rest)
  {
    var text := word + [' '] + rest;
    IndexOfAfterPiece(word, rest, ' ');
    assert text[..|word|] == word;
    assert text[|word| + 1..] == rest;
  }

  /** A word with no space is all there is. */
  lemma LoneWord(word: string)
    requires ' ' !in word
    ensures UpToSpace(word) == word && AfterSpace(word) == None
  {
    IndexOfIs(word, ' ', |word|);
  }

  /** The amount and description of a command are read from the text after
      its first space. */
  lemma TypedFromRest(text: string, rest: string)
    requires AfterSpace(text) == Some(rest)
    ensures TypedAmount(text) == ParseFloat(ReplaceFirst(UpToSpace(rest), ',', '.'))
    ensures TypedDescription(text)
         == match AfterSpace(rest)
            case None => NoDescription
            case Some(d) => if d == "" then NoDescription else d
  {
  }

  /** In `<sign> <amount> <description>` the amount is the word after the
      sign and the description is everything after the amount's space,
      inner spaces included. */
  lemma RecordWords(sign: char, amount: string, desc: string)
    requires sign != ' ' && ' ' !in amount
    ensures var text := [sign, ' '] + amount + [' '] + desc;
            && TypedAmount(text) == ParseFloat(ReplaceFirst(amount, ',', '.'))
            && TypedDescription(text) == (if desc == "" then NoDescription else desc)
  {
    var rest := amount + [' '] + desc;
    var text := [sign, ' '] + amount + [' '] + desc;
    assert text == [sign, ' '] + rest;
    AfterFirstWord(sign, rest);
    WordThenRest(amount, desc);
    TypedFromRest(text, rest);
  }

  /** `<sign> <amount>` alone records the placeholder description. */
  lemma RecordWithoutDescription(sign: char, amount: string)
    requires sign != ' ' && ' ' !in amount
    ensures var text := [sign, ' '] + amount;
            && TypedAmount(text) == ParseFloat(ReplaceFirst(amount, ',', '.'))
            && TypedDescription(text) == NoDescription
  {
    AfterFirstWord(sign, amount);
    LoneWord(amount);
    TypedFromRest([sign, ' '] + amount, amount);
  }

  /** `limpar tudo` empties the ledger and the store. */
  lemma ClearEmpties(s: State, m: Inbound, now: string)
    requires Authorised(m) && ToLower(TextOf(m)) == "limpar tudo"
    ensures Handle(s, m, now) == Step(State([], Some([])), [Outgoing(m.remoteJid, Cleared)])
  {
    HandleAuthorised(s, m, now);
  }

  /** `resumo` changes nothing and answers with the summary of the ledger. */
  lemma SummaryChangesNothing(s: State, m: Inbound, now: string)
    requires Authorised(m) && ToLower(TextOf(m)) == "resumo"
    ensures Handle(s, m, now) == Step(s, [Outgoing(m.remoteJid, SummaryReply(s.ledger))])
  {
    HandleAuthorised(s, m, now);
  }

  /** On a ledger of at most ten transactions the summary lists all of them
      and its balance is the balance of the whole ledger. */
  lemma SummaryOfShortLedger(l: Ledger)
    requires 0 < |l| <= SummaryWindow
    ensures SummaryReply(l) == Summary(l, TotalIn(l) - TotalOut(l))
  {
  }

  /** Transactions older than the last ten play no part in the summary. */
  lemma SummaryIgnoresOlder(older: Ledger, recent: Ledger)
    requires |recent| >= SummaryWindow
    ensures SummaryReply(older + recent) == SummaryReply(recent)
  {
    var l := older + recent;
    assert l[|l| - SummaryWindow..] == recent[|recent| - SummaryWindow..];
  }

  /** `pdf` changes nothing and answers first with the acknowledgement, then
      with the report, whose totals are over the whole ledger: entries, all
      other amounts, and their difference. */
  lemma ReportChangesNothing(s: State, m: Inbound, now: string)
    requires Authorised(m) && ToLower(TextOf(m)) == "pdf"
    ensures var r := Handle(s, m, now);
            && r.state == s
            && |r.sent| == 2
            && r.sent[0] == Outgoing(m.remoteJid, Generating)
            && r.sent[1] == Outgoing(m.remoteJid, ReportReady(BuildDocument(s.ledger, now)))
            && r.sent[1].reply.doc.totalIn == TotalIn(s.ledger)
            && r.sent[1].reply.doc.totalOut == TotalOut(s.ledger)
            && r.sent[1].reply.doc.balance == TotalIn(s.ledger) - TotalOut(s.ledger)
            && |r.sent[1].reply.doc.rows| == |s.ledger|
  {
    HandleAuthorised(s, m, now);
    BalanceIsInMinusOut(s.ledger);
  }

  /** Asking for the report twice in a row, at two different times, leaves
      the state alone both times and gives the same totals and rows; only
      the header's time stamp may differ. */
  lemma ReportTwice(s: State, m: Inbound, now1: string, now2: string)
    requires Authorised(m) && ToLower(TextOf(m)) == "pdf"
    ensures var first := Handle(s, m, now1);
            var second := Handle(first.state, m, now2);
            && second.state == first.state == s
            && |first.sent| == |second.sent| == 2
            && second.sent[0] == first.sent[0]
            && first.sent[1].reply.ReportReady? && second.sent[1].reply.ReportReady?
            && second.sent[1].reply.doc.totalIn == first.sent[1].reply.doc.totalIn
            && second.sent[1].reply.doc.totalOut == first.sent[1].reply.doc.totalOut
            && second.sent[1].reply.doc.balance == first.sent[1].reply.doc.balance
            && second.sent[1].reply.doc.rows == first.sent[1].reply.doc.rows
            && second.sent[1].reply.doc.generatedAt == now2
  {
    ReportChangesNothing(s, m, now1);
    ReportChangesNothing(s, m, now2);
  }

  /** Handling a sequence of messages, each with its own arrival time. */
  function Run(s: State, events: seq<(Inbound, string)>): State
    decreases |events|
  {
    if |events| == 0 then s
    else Run(Handle(s, events[0].0, events[0].1).state, events[1..])
  }

  /** Whatever messages arrive, the store keeps holding exactly the in-memory
      ledger, so a restart loads the ledger the bot was working with. */
  lemma {:induction false} RunStaysSynced(s: State, events: seq<(Inbound, string)>)
    requires Synced(s)
    ensures Synced(Run(s, events))
    decreases |events|
  {
    if |events| > 0 {
      RunStaysSynced(Handle(s, events[0].0, events[0].1).state, events[1..]);
    }
  }

  /** Starting from any store content and handling any messages, the store
      reloads to the in-memory ledger. */
  lemma BootThenRun(stored: Option<Ledger>, events: seq<(Inbound, string)>)
    ensures Load(Run(Boot(stored), events).persisted) == Run(Boot(stored), events).ledger
  {
    RunStaysSynced(Boot(stored), events);
  }
}
