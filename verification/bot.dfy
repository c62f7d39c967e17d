/** The `messages.upsert` handler as one pure step: given the ledger (with
    what the store holds) and an inbound message, the next ledger and store
    and the replies sent back. Sending, writing the store file and drawing
    the report are effects of the real handler; here they are results. */
module Bot {
  import opened Optional
  import opened JsString
  import opened NumberParse
  import opened Bookkeeping
  import opened Report

  /** The fixed allow-list of chat ids the bot answers; every other sender is
      ignored without a reply. Several owners appear twice, with and without
      the ninth mobile digit. */
  const Owners: seq<string> := [
    "558399221895@s.whatsapp.net", "55839221895@s.whatsapp.net",
    "5583981604819@s.whatsapp.net", "558381604819@s.whatsapp.net",
    "5583996918047@s.whatsapp.net", "558396918047@s.whatsapp.net",
    "193527082418320@lid"
  ]

  /** Description stored when the record command gives none. */
  const NoDescription: string := "Sem descrição"

  /** How many of the latest transactions `resumo` lists. */
  const SummaryWindow: nat := 10

  /** The text-bearing part of a message: a plain conversation text and/or an
      extended text message's text. */
  datatype Content = Content(conversation: Option<string>, extendedText: Option<string>)

  /** An inbound message: the chat it came from, whether the bot itself sent
      it, and its content (absent for protocol and status events). */
  datatype Inbound = Inbound(remoteJid: string, fromMe: bool, message: Option<Content>)

  /** What a trimmed message asks for. */
  datatype Intent = ShowMenu | Record | ShowSummary | GenerateReport | ClearLedger | Ignore

  /** The replies the bot sends, told apart by what they say rather than by
      their exact wording. */
  datatype Reply =
    | Menu
    | Recorded(kind: Kind, value: real, desc: string)
    | InvalidFormat
    | NoData
    | Summary(entries: seq<Transaction>, balance: real)
    | Generating
    | ReportReady(doc: Document)
    | Cleared

  datatype Outgoing = Outgoing(to: string, reply: Reply)

  /** The in-memory ledger and what the store file holds (`None` while no
      file exists). */
  datatype State = State(ledger: Ledger, persisted: Option<Ledger>)

  /** The outcome of handling one message. */
  datatype Step = Step(state: State, sent: seq<Outgoing>)

  /** What loading the store gives: its ledger, or the empty ledger when no
      file exists. */
  function Load(stored: Option<Ledger>): Ledger {
    stored.GetOr([])
  }

  /** Restarting would find the same ledger in the store as in memory. */
  predicate Synced(s: State) {
    Load(s.persisted) == s.ledger
  }

  /** The state at start-up, loaded from the store. */
  function Boot(stored: Option<Ledger>): (s: State)
    ensures Synced(s)
    ensures s.persisted == stored
  {
    State(Load(stored), stored)
  }

  /** `saveForDatebase`: the store is overwritten with the whole ledger. */
  function Save(l: Ledger): (s: State)
    ensures Synced(s) && s.ledger == l
  {
    State(l, Some(l))
  }

  /** `conversation || extendedTextMessage?.text || ""`: the first of the two
      texts that is present and non-empty. */
  function BodyText(c: Content): (t: string)
    ensures t != "" ==> Some(t) == c.conversation || Some(t) == c.extendedText
    ensures c.conversation.Some? && c.conversation.value != "" ==> t == c.conversation.value
    ensures t == "" ==>
              && (c.conversation.None? || c.conversation.value == "")
              && (c.extendedText.None? || c.extendedText.value == "")
  {
    if c.conversation.Some? && c.conversation.value != "" then c.conversation.value
    else if c.extendedText.Some? && c.extendedText.value != "" then c.extendedText.value
    else ""
  }

  predicate IsMenuWord(low: string) {
    low == "menu" || low == "ajuda" || low == "leoncio"
  }

  predicate StartsWithSign(text: string) {
    |text| > 0 && (text[0] == '+' || text[0] == '-')
  }

  /** The command a trimmed text asks for. The source tries the menu words,
      then a leading sign, then `resumo`, `pdf` and `limpar tudo`, the words
      compared lower-cased; since no two of these tests can hold at once,
      each intent is chosen exactly when its own test holds. */
  function Classify(text: string): (i: Intent)
    ensures i == ShowMenu <==> IsMenuWord(ToLower(text))
    ensures i == Record <==> StartsWithSign(text)
    ensures i == ShowSummary <==> ToLower(text) == "resumo"
    ensures i == GenerateReport <==> ToLower(text) == "pdf"
    ensures i == ClearLedger <==> ToLower(text) == "limpar tudo"
  {
    var low := ToLower(text);
    if IsMenuWord(low) then ShowMenu
    else if StartsWithSign(text) then Record
    else if low == "resumo" then ShowSummary
    else if low == "pdf" then GenerateReport
    else if low == "limpar tudo" then ClearLedger
    else Ignore
  }

  /** `de.split('@')[0]`: the chat id up to its first `@`. */
  function Author(jid: string): (a: string)
    ensures a <= jid && '@' !in a
    ensures |a| < |jid| ==> jid[|a|] == '@'
  {
    Split(jid, '@')[0]
  }

  /** The text after the first space, when there is one. */
  function AfterSpace(text: string): Option<string> {
    var k := IndexOf(text, ' ');
    if k < |text| then Some(text[k + 1..]) else None
  }

  /** The text up to its first space (all of it when it has none). */
  function UpToSpace(text: string): string {
    text[..IndexOf(text, ' ')]
  }

  /** The amount a record command gives: the text between its first and its
      second space, with its first comma read as a decimal point. */
  function TypedAmount(text: string): Option<real> {
    match AfterSpace(text)
    case None => None
    case Some(rest) => ParseFloat(ReplaceFirst(UpToSpace(rest), ',', '.'))
  }

  /** The description a record command gives: everything after its second
      space, or the placeholder when that is missing or empty. */
  function TypedDescription(text: string): string {
    match AfterSpace(text)
    case None => NoDescription
    case Some(rest) =>
      match AfterSpace(rest)
      case None => NoDescription
      case Some(d) => if d == "" then NoDescription else d
  }

  /** The transaction a `+`/`-` command records, or `None` for an invalid
      format. The text is split on single spaces: the second piece, its first
      comma turned into a point, is the amount, and the pieces after it,
      joined by single spaces, the description. The kind is `Entrada` for a
      leading `+` and `Saida` otherwise, and the author is the sender id up
      to its `@`. */
  function ParseRecord(text: string, sender: string, now: string): (r: Option<Transaction>)
    ensures r.None? <==> TypedAmount(text).None?
    ensures r.Some? ==> r.value == Transaction(now,
                                               if |text| > 0 && text[0] == '+' then Entrada else Saida,
                                               TypedAmount(text).value,
                                               TypedDescription(text),
                                               Author(sender))
  {
    var parts := Split(text, ' ');
    var value := if |parts| > 1 then ParseFloat(ReplaceFirst(parts[1], ',', '.')) else None;
    PiecesAfterSpace(text);
    match value
    case None => None
    case Some(v) =>
      var joined := Join(parts[2..], ' ');
      var kind := if |text| > 0 && text[0] == '+' then Entrada else Saida;
      Some(Transaction(now, kind, v, if joined == "" then NoDescription else joined, Author(sender)))
  }

  /** How the pieces of `split(' ')` relate to the text: there is a second
      piece exactly when there is a space, it is the text between the first
      and the second space, and the pieces after it join back to the text
      after the second space. */
  lemma PiecesAfterSpace(text: string)
    ensures var parts := Split(text, ' ');
      && (|parts| > 1 <==> AfterSpace(text).Some?)
      && (|parts| > 1 ==> parts[1] == UpToSpace(AfterSpace(text).value))
      && (|parts| > 1 ==>
            var joined := Join(parts[2..], ' ');
            (if joined == "" then NoDescription else joined) == TypedDescription(text))
  {
    var k := IndexOf(text, ' ');
    if k < |text| {
      var rest := text[k + 1..];
      SplitTail(text, ' ');
      DescriptionPieces(rest);
    }
  }

  /** The pieces after the first piece of `rest` join back to the text after
      its first space, or to nothing when it has no space. */
  lemma DescriptionPieces(rest: string)
    ensures var parts := Split(rest, ' ');
      && Join(parts[1..], ' ') == (match AfterSpace(rest) case None => "" case Some(d) => d)
  {
    var k2 := IndexOf(rest, ' ');
    if k2 < |rest| {
      SplitTail(rest, ' ');
      JoinSplit(rest[k2 + 1..], ' ');
    }
  }

  /** The replies to `resumo`: "no data" for an empty ledger; otherwise the
      last ten transactions (all of them when fewer) in ledger order and the
      balance over those only. */
  function SummaryReply(l: Ledger): (r: Reply)
    ensures r == NoData <==> |l| == 0
    ensures r.Summary? || r == NoData
    ensures r.Summary? ==>
              && |r.entries| == (if |l| < SummaryWindow then |l| else SummaryWindow)
              && l == l[..|l| - |r.entries|] + r.entries
              && r.balance == TotalIn(r.entries) - TotalOut(r.entries)
  {
    if |l| == 0 then NoData
    else
      var window := Last(l, SummaryWindow);
      BalanceIsInMinusOut(window);
      Summary(window, Balance(window))
  }

  /** A message the handler acts on: it has content, the bot did not send
      it, and its sender is on the allow-list. */
  predicate Authorised(m: Inbound) {
    m.message.Some? && !m.fromMe && m.remoteJid in Owners
  }

  /** The trimmed text of a message with content. */
  function TextOf(m: Inbound): string
    requires m.message.Some?
  {
    Trim(BodyText(m.message.value))
  }

  /** A `+`/`-` command from `de`. When the typed amount parses, the
      transaction with the sign's kind, that amount, the typed description and
      the sender's author is appended, the store is rewritten with the new
      ledger, and the record is confirmed; otherwise nothing changes and the
      format error is the only reply. */
  function RecordCommand(s: State, de: string, text: string, now: string): (r: Step)
    ensures TypedAmount(text).None? ==> r == Step(s, [Outgoing(de, InvalidFormat)])
    ensures TypedAmount(text).Some? ==>
              var t := Transaction(now, if |text| > 0 && text[0] == '+' then Entrada else Saida,
                                   TypedAmount(text).value, TypedDescription(text), Author(de));
              && r.state.ledger == s.ledger + [t]
              && Synced(r.state) && r.state.persisted == Some(r.state.ledger)
              && r.sent == [Outgoing(de, Recorded(t.kind, t.value, t.desc))]
  {
    match ParseRecord(text, de, now)
    case Some(t) => Step(Save(s.ledger + [t]), [Outgoing(de, Recorded(t.kind, t.value, t.desc))])
    case None => Step(s, [Outgoing(de, InvalidFormat)])
  }

  /** The command `text` from the allow-listed sender `de`: every reply
      goes to `de`; the state changes only to a saved ledger that is the old
      one with one transaction appended, or the empty one. */
  function Respond(s: State, de: string, text: string, now: string): (r: Step)
    ensures forall o :: o in r.sent ==> o.to == de
    ensures |r.sent| <= 2
    ensures r.sent == [] <==> Classify(text) == Ignore
    ensures r.sent == [] ==> r.state == s
    ensures || r.state == s
            || r.state == Save([])
            || (exists t :: r.state == Save(s.ledger + [t]))
  {
    match Classify(text)
    case ShowMenu => Step(s, [Outgoing(de, Menu)])
    case Record => RecordCommand(s, de, text, now)
    case ShowSummary => Step(s, [Outgoing(de, SummaryReply(s.ledger))])
    case GenerateReport =>
      Step(s, [Outgoing(de, Generating), Outgoing(de, ReportReady(BuildDocument(s.ledger, now)))])
    case ClearLedger => Step(Save([]), [Outgoing(de, Cleared)])
    case Ignore => Step(s, [])
  }

  /** Handling one inbound message at time `now` (the timestamp new records
      get and the report shows). Only the sender is ever answered, at most
      twice; nothing changes without a reply; the store is rewritten with the
      whole ledger whenever the state changes, and the ledger either stays,
      grows by one at the end, or is emptied. */
  function Handle(s: State, m: Inbound, now: string): (r: Step)
    ensures forall o :: o in r.sent ==> o.to == m.remoteJid
    ensures |r.sent| <= 2
    ensures r.sent == [] ==> r.state == s
    ensures r.state != s ==> r.state.persisted == Some(r.state.ledger)
    ensures Synced(s) ==> Synced(r.state)
    ensures || r.state.ledger == s.ledger
            || r.state.ledger == []
            || (|r.state.ledger| == |s.ledger| + 1 && r.state.ledger[..|s.ledger|] == s.ledger)
  {
    if m.message.None? || m.fromMe then Step(s, [])
    else
      var de := m.remoteJid;
      var text := Trim(BodyText(m.message.value));
      if de !in Owners then Step(s, [])
      else
        var r := Respond(s, de, text, now);
        assert r.state != s && r.state != Save([]) ==>
                 r.state.ledger[..|s.ledger|] == s.ledger;
        r
  }

  /** One `messages.upsert` event: only its first message is handled. (An
      empty batch makes the source throw before it has any effect.) Only the
      first message's sender is ever answered, the store stays in step with
      the ledger, and an empty batch changes nothing. */
  function HandleUpsert(s: State, batch: seq<Inbound>, now: string): (r: Step)
    ensures forall o :: o in r.sent ==> |batch| > 0 && o.to == batch[0].remoteJid
    ensures |r.sent| <= 2
    ensures Synced(s) ==> Synced(r.state)
    ensures |batch| == 0 ==> r.state == s && r.sent == []
  {
    if |batch| == 0 then Step(s, []) else Handle(s, batch[0], now)
  }

  /** Messages after the first in one event have no effect: the event is
      handled as its first message alone would be. */
  lemma LaterMessagesIgnored(s: State, batch: seq<Inbound>, now: string)
    requires |batch| > 0
    ensures HandleUpsert(s, batch, now) == HandleUpsert(s, batch[..1], now)
    ensures HandleUpsert(s, batch, now) == Handle(s, batch[0], now)
  {
  }
}
