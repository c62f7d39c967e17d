/** Concrete conversations with the bot, each pinned down end to end from
    the text an owner types to the ledger, the store and the replies. The
    text of a whole conversation is a parameter fixed by a precondition, so
    the verifier does not unfold every function on it at once, and every
    conversation is taken apart into small facts about its own text. */
module Scenarios {
  import opened Optional
  import opened JsString
  import opened NumberParse
  import opened Bookkeeping
  import opened Report
  import opened Bot
  import opened HandlerLaws

  const Now: string := "10/10/2026, 09:30:00"

  /** A plain text message from `jid`. */
  function Text(jid: string, body: string): (m: Inbound)
    ensures m.message.Some? && !m.fromMe && m.remoteJid == jid
    ensures TextOf(m) == Trim(body)
  {
    Inbound(jid, false, Some(Content(Some(body), None)))
  }

  /** A value with two fraction digits is a number of hundredths. */
  lemma Hundredths(v: nat)
    ensures v as real / Pow10(2) as real == v as real / 100.0
  {
    assert Pow10(2) == 100;
  }

  /** A value with three fraction digits is a number of thousandths. */
  lemma Thousandths(v: nat)
    ensures v as real / Pow10(3) as real == v as real / 1000.0
  {
    assert Pow10(3) == 1000;
  }

  lemma Digits25050()
    ensures AllDigits("25050") && DigitsValue("25050") == 25050
  {
    DigitsValueSnoc("", '2');
    DigitsValueSnoc("2", '5');
    DigitsValueSnoc("25", '0');
    DigitsValueSnoc("250", '5');
    DigitsValueSnoc("2505", '0');
    assert "" + ['2'] == "2" && "2" + ['5'] == "25" && "25" + ['0'] == "250";
    assert "250" + ['5'] == "2505" && "2505" + ['0'] == "25050";
  }

  lemma Digits1000()
    ensures AllDigits("1000") && DigitsValue("1000") == 1000
  {
    DigitsValueSnoc("", '1');
    DigitsValueSnoc("1", '0');
    DigitsValueSnoc("10", '0');
    DigitsValueSnoc("100", '0');
    assert "" + ['1'] == "1" && "1" + ['0'] == "10" && "10" + ['0'] == "100";
    assert "100" + ['0'] == "1000";
  }

  /** `whole,fraction` followed by text that stops the literal parses to the
      digits `v` scaled down by the fraction's length. */
  lemma CommaAmount(typed: string, whole: string, fraction: string, tail: string, v: nat)
    requires |whole| > 0 && AllDigits(whole) && AllDigits(fraction) && StopsLiteral(tail)
    requires typed == whole + "," + fraction + tail
    requires AllDigits(whole + fraction) && DigitsValue(whole + fraction) == v
    ensures ParseFloat(ReplaceFirst(typed, ',', '.')) == Some(v as real / Pow10(|fraction|) as real)
  {
    CommaDecimal(whole, fraction, tail);
  }

  lemma Amount25050Digits()
    ensures ParseFloat(ReplaceFirst("250,50", ',', '.')) == Some(25050 as real / Pow10(2) as real)
  {
    assert "250" + "50" == "25050";
    Digits25050();
    assert "250,50" == "250" + "," + "50" + "";
    CommaAmount("250,50", "250", "50", "", 25050);
  }

  /** The Brazilian amount `250,50` is two hundred and fifty and a half. */
  lemma Amount250Comma50()
    ensures ParseFloat(ReplaceFirst("250,50", ',', '.')) == Some(250.5)
  {
    Amount25050Digits();
    Hundredths(25050);
  }

  lemma Amount1000Digits()
    ensures ParseFloat(ReplaceFirst("1,000,50", ',', '.')) == Some(1000 as real / Pow10(3) as real)
  {
    assert "1" + "000" == "1000";
    Digits1000();
    assert "1,000,50" == "1" + "," + "000" + ",50";
    CommaAmount("1,000,50", "1", "000", ",50", 1000);
  }

  /** `1,000,50`: only the first comma becomes a point and the literal stops
      at the second one, so the amount is 1. */
  lemma AmountThousands()
    ensures ParseFloat(ReplaceFirst("1,000,50", ',', '.')) == Some(1.0)
  {
    Amount1000Digits();
    Thousandths(1000);
  }

  lemma DigitsFive()
    ensures AllDigits("5") && DigitsValue("5") == 5
  {
    DigitsValueSnoc("", '5');
    assert "" + ['5'] == "5";
  }

  lemma AmountFive()
    ensures ParseFloat("5") == Some(5.0)
  {
    DigitsFive();
    assert "5" + "" == "5";
    WholeNumber("5", "");
  }

  /** `-5` is minus five. */
  lemma AmountMinusFive()
    ensures ParseFloat(ReplaceFirst("-5", ',', '.')) == Some(-5.0)
  {
    assert ReplaceFirst("-5", ',', '.') == "-5";
    assert "-5" == ['-'] + "5";
    ParseNegated("5");
    AmountFive();
  }

  /** A word does not parse as a number. */
  lemma AmountWord()
    ensures ParseFloat(ReplaceFirst("abc", ',', '.')) == None
  {
    assert ReplaceFirst("abc", ',', '.') == "abc";
    assert TrimStart("abc") == "abc";
  }

  /** The text of a record command with a description, split into sign,
      amount and description. */
  lemma CommandWords(body: string, sign: char, amount: string, desc: string)
    requires sign != ' ' && ' ' !in amount && desc != ""
    requires body == [sign, ' '] + amount + [' '] + desc
    ensures |body| > 0 && body[0] == sign
    ensures TypedAmount(body) == ParseFloat(ReplaceFirst(amount, ',', '.'))
    ensures TypedDescription(body) == desc
  {
    RecordWords(sign, amount, desc);
  }

  /** The text of a record command without a description. */
  lemma CommandWithoutDescription(body: string, sign: char, amount: string)
    requires sign != ' ' && ' ' !in amount
    requires body == [sign, ' '] + amount
    ensures |body| > 0 && body[0] == sign
    ensures TypedAmount(body) == ParseFloat(ReplaceFirst(amount, ',', '.'))
    ensures TypedDescription(body) == NoDescription
  {
    RecordWithoutDescription(sign, amount);
  }

  /** A message whose text is its own trim carries that text. */
  lemma Unpadded(owner: string, body: string)
    requires |body| > 0 && !IsSpace(body[0]) && !IsSpace(body[|body| - 1])
    ensures TextOf(Text(owner, body)) == body
  {
    TrimUnpadded(body);
  }

  lemma EntryWithCommaText(body: string)
    requires body == "+ 250,50 Suspensão Gol"
    ensures |body| > 0 && body[0] == '+' && StartsWithSign(body)
    ensures TypedAmount(body) == Some(250.5)
    ensures TypedDescription(body) == "Suspensão Gol"
  {
    CommandWords(body, '+', "250,50", "Suspensão Gol");
    Amount250Comma50();
  }

  /** `+ 250,50 Suspensão Gol` from an owner records an entry of 250.5 with
      the description `Suspensão Gol`, saves the grown ledger and confirms. */
  lemma RecordEntryWithComma(s: State, owner: string, body: string)
    requires owner in Owners
    requires body == "+ 250,50 Suspensão Gol"
    ensures var t := Transaction(Now, Entrada, 250.5, "Suspensão Gol", Author(owner));
            Handle(s, Text(owner, body), Now)
              == Step(Save(s.ledger + [t]), [Outgoing(owner, Recorded(Entrada, 250.5, "Suspensão Gol"))])
  {
    Unpadded(owner, body);
    EntryWithCommaText(body);
    ValidRecordAppends(s, Text(owner, body), Now, 250.5);
  }

  lemma WordAmountText(body: string)
    requires body == "- abc peças"
    ensures StartsWithSign(body) && TypedAmount(body).None?
  {
    CommandWords(body, '-', "abc", "peças");
    AmountWord();
  }

  /** `- abc peças`: the amount does not parse, so nothing is recorded and
      the format error is the only reply. */
  lemma RecordWithWordAmount(s: State, owner: string, body: string)
    requires owner in Owners
    requires body == "- abc peças"
    ensures Handle(s, Text(owner, body), Now) == Step(s, [Outgoing(owner, InvalidFormat)])
  {
    Unpadded(owner, body);
    WordAmountText(body);
    InvalidAmountChangesNothing(s, Text(owner, body), Now);
  }

  lemma NoSpaceText(body: string)
    requires body == "+250"
    ensures StartsWithSign(body) && TypedAmount(body).None?
  {
    LoneWord(body);
  }

  /** `+250`, with no space after the sign, has no amount: invalid format. */
  lemma RecordWithoutSpace(s: State, owner: string, body: string)
    requires owner in Owners
    requires body == "+250"
    ensures Handle(s, Text(owner, body), Now) == Step(s, [Outgoing(owner, InvalidFormat)])
  {
    Unpadded(owner, body);
    NoSpaceText(body);
    InvalidAmountChangesNothing(s, Text(owner, body), Now);
  }

  lemma DoubleSpaceText(body: string)
    requires body == "+  250"
    ensures StartsWithSign(body) && TypedAmount(body).None?
  {
    assert body == ['+', ' '] + " 250";
    AfterFirstWord('+', " 250");
    IndexOfIs(" 250", ' ', 0);
    assert UpToSpace(" 250") == "";
  }

  /** `+  250`, with two spaces, splits into an empty amount and `250`: the
      empty amount does not parse and the format error is the reply. */
  lemma RecordWithDoubleSpace(s: State, owner: string, body: string)
    requires owner in Owners
    requires body == "+  250"
    ensures Handle(s, Text(owner, body), Now) == Step(s, [Outgoing(owner, InvalidFormat)])
  {
    Unpadded(owner, body);
    DoubleSpaceText(body);
    InvalidAmountChangesNothing(s, Text(owner, body), Now);
  }

  lemma NegativeEntryText(body: string)
    requires body == "+ -5"
    ensures |body| > 0 && body[0] == '+' && StartsWithSign(body)
    ensures TypedAmount(body) == Some(-5.0)
    ensures TypedDescription(body) == NoDescription
  {
    CommandWithoutDescription(body, '+', "-5");
    AmountMinusFive();
  }

  /** `+ -5` records an ENTRY of -5: the amount keeps its typed sign and the
      leading `+` only picks the kind. */
  lemma RecordNegativeEntry(s: State, owner: string, body: string)
    requires owner in Owners
    requires body == "+ -5"
    ensures var t := Transaction(Now, Entrada, -5.0, NoDescription, Author(owner));
            Handle(s, Text(owner, body), Now)
              == Step(Save(s.ledger + [t]), [Outgoing(owner, Recorded(Entrada, -5.0, NoDescription))])
  {
    Unpadded(owner, body);
    NegativeEntryText(body);
    ValidRecordAppends(s, Text(owner, body), Now, -5.0);
  }

  lemma ThousandsText(body: string)
    requires body == "+ 1,000,50"
    ensures |body| > 0 && body[0] == '+' && StartsWithSign(body)
    ensures TypedAmount(body) == Some(1.0)
    ensures TypedDescription(body) == NoDescription
  {
    CommandWithoutDescription(body, '+', "1,000,50");
    AmountThousands();
  }

  /** `+ 1,000,50`, typed with a thousands separator, records an entry of 1. */
  lemma RecordThousandsSeparator(s: State, owner: string, body: string)
    requires owner in Owners
    requires body == "+ 1,000,50"
    ensures var t := Transaction(Now, Entrada, 1.0, NoDescription, Author(owner));
            Handle(s, Text(owner, body), Now)
              == Step(Save(s.ledger + [t]), [Outgoing(owner, Recorded(Entrada, 1.0, NoDescription))])
  {
    Unpadded(owner, body);
    ThousandsText(body);
    ValidRecordAppends(s, Text(owner, body), Now, 1.0);
  }

  /** A command word typed exactly as the bot expects it. */
  lemma PlainWord(owner: string, body: string)
    requires body == "resumo" || body == "limpar tudo"
    ensures TextOf(Text(owner, body)) == body && ToLower(body) == body
  {
    Unpadded(owner, body);
    LowerWord(body);
  }

  lemma LowerWord(body: string)
    requires body == "resumo" || body == "limpar tudo"
    ensures ToLower(body) == body
  {
    LowerMatches(body, body);
  }

  /** `resumo` right after starting with an empty store answers that there
      is no data. */
  lemma SummaryOfNothing(stored: Option<Ledger>, owner: string, body: string)
    requires owner in Owners && body == "resumo"
    requires Load(stored) == []
    ensures Handle(Boot(stored), Text(owner, body), Now)
         == Step(Boot(stored), [Outgoing(owner, NoData)])
  {
    PlainWord(owner, body);
    SummaryChangesNothing(Boot(stored), Text(owner, body), Now);
  }

  /** A stranger typing a valid command gets nothing and changes nothing. */
  lemma StrangerIgnored(s: State, stranger: string)
    requires stranger !in Owners
    ensures Handle(s, Text(stranger, "limpar tudo"), Now) == Step(s, [])
  {
    Dropped(s, Text(stranger, "limpar tudo"), Now);
  }

  lemma PaddedReportText(body: string)
    requires body == "  PDF \n"
    ensures Trim(body) == "PDF"
  {
    assert body == "  " + "PDF" + " \n";
    TrimPadded("  ", "PDF", " \n");
  }

  /** `PDF` lower-cases to the report command. */
  lemma UpperReportWord()
    ensures ToLower("PDF") == "pdf"
  {
    LowerMatches("PDF", "pdf");
  }

  lemma PaddedReportMessage(owner: string, body: string)
    requires body == "  PDF \n"
    ensures ToLower(TextOf(Text(owner, body))) == "pdf"
  {
    PaddedReportText(body);
    UpperReportWord();
  }

  /** `  PDF \n`: white space around the command and its letter case do not
      matter; the report comes after the acknowledgement and nothing
      changes. */
  lemma PaddedReportCommand(s: State, owner: string, body: string)
    requires owner in Owners
    requires body == "  PDF \n"
    ensures var r := Handle(s, Text(owner, body), Now);
            && r.state == s
            && r.sent == [Outgoing(owner, Generating), Outgoing(owner, ReportReady(BuildDocument(s.ledger, Now)))]
  {
    PaddedReportMessage(owner, body);
    ReportChangesNothing(s, Text(owner, body), Now);
  }

  /** `limpar tudo` followed by `resumo`: the ledger and the store are
      emptied and the summary then finds no data. */
  lemma ClearThenSummary(s: State, owner: string, clear: string, summary: string)
    requires owner in Owners && clear == "limpar tudo" && summary == "resumo"
    ensures var first := Handle(s, Text(owner, clear), Now);
            && first == Step(State([], Some([])), [Outgoing(owner, Cleared)])
            && Handle(first.state, Text(owner, summary), Now).sent == [Outgoing(owner, NoData)]
  {
    PlainWord(owner, clear);
    PlainWord(owner, summary);
    ClearEmpties(s, Text(owner, clear), Now);
    SummaryChangesNothing(State([], Some([])), Text(owner, summary), Now);
  }
}
