/** A clipboard in conversation with a client that answers the requests for its data in the order they were sent. */
module ClipboardRuns {
  import opened Basics
  import opened ClipboardCodec
  import opened ClipboardState

  /** The client's messages arrive only while the channel is open; `Announcing` runs a queued announcement. */
  datatype Event =
    | Starting(created: bool, started: bool)
    | Stopping
    | Enabling(on: bool)
    | Sharing(text: Text)
    | Announcing
    | FormatList(formats: seq<uint32>)
    | DataRequest(format: uint32)
    | Answer(ok: bool, data: Option<seq<Byte>>)

  /** The answer a text was taken from: the request the client answered, the last request sent by then, and the data. */
  datatype Taken = Taken(answered: nat, latest: nat, data: Option<seq<Byte>>)

  /** `answered` counts the requests the client is done with. */
  datatype Conversation = Conversation(clipboard: State, answered: nat, taken: seq<Taken>)

  const START := Conversation(INITIAL, 0, [])

  /** The formats of the requests for data sent to the client, in order. */
  function Asked(log: seq<Happening>): seq<uint32> {
    if |log| == 0 then []
    else
      var h := log[|log| - 1];
      Asked(log[..|log| - 1]) + if h.DataRequested? then [h.format] else []
  }

  /** The texts taken from the client, in order. */
  function Received(log: seq<Happening>): seq<Text> {
    if |log| == 0 then []
    else
      var h := log[|log| - 1];
      Received(log[..|log| - 1]) + if h.TextChanged? then [h.text] else []
  }

  /** What there is to announce has changed since the last announcement. */
  predicate Stale(log: seq<Happening>) {
    |log| > 0 && (log[|log| - 1].OfferChanged? || (!log[|log| - 1].FormatListSent? && Stale(log[..|log| - 1])))
  }

  lemma Logged(log: seq<Happening>, h: Happening)
    ensures Asked(log + [h]) == Asked(log) + if h.DataRequested? then [h.format] else []
    ensures Received(log + [h]) == Received(log) + if h.TextChanged? then [h.text] else []
    ensures Stale(log + [h]) <==> h.OfferChanged? || (!h.FormatListSent? && Stale(log))
  {
    assert (log + [h])[..|log|] == log;
  }

  /** One event at the clipboard, whatever the client sends and whenever. */
  function Handle(s: State, e: Event, locale: Locale): State {
    match e
    case Starting(created, started) => Initialize(s, created, started)
    case Stopping => Close(s)
    case Enabling(on) => SetEnabled(s, on)
    case Sharing(text) => SetServerText(s, text)
    case Announcing => if s.announcements == 0 then s else SendServerData(s.(announcements := s.announcements - 1))
    case FormatList(formats) => if s.open then OnClientFormatList(s, formats) else s
    case DataRequest(format) => if s.open then OnClientFormatDataRequest(s, format, locale) else s
    case Answer(ok, data) => if s.open then OnClientFormatDataResponse(s, ok, data, locale) else s
  }

  /** One event with a client that answers only what it was asked. With the channel all requests under way are lost. */
  function Step(c: Conversation, e: Event, locale: Locale): Conversation {
    var s := c.clipboard;
    match e
    case Stopping => Conversation(Close(s), if s.open then |Asked(s.log)| else c.answered, c.taken)
    case Answer(ok, data) => if s.open && c.answered < |Asked(s.log)| then Answered(c, ok, data, locale) else c
    case _ => c.(clipboard := Handle(s, e, locale))
  }

  function Answered(c: Conversation, ok: bool, data: Option<seq<Byte>>, locale: Locale): Conversation
    requires c.clipboard.open && c.answered < |Asked(c.clipboard.log)|
  {
    var s := c.clipboard;
    var next := Handle(s, Answer(ok, data), locale);
    var taken := if next.log == s.log then [] else [Taken(c.answered, |Asked(s.log)| - 1, data)];
    Conversation(next, c.answered + 1, c.taken + taken)
  }

  function Run(events: seq<Event>, locale: Locale): Conversation {
    if |events| == 0 then START else Step(Run(events[..|events| - 1], locale), events[|events| - 1], locale)
  }

  predicate IsTextFormat(format: uint32) {
    format == CF_TEXT || format == CF_OEMTEXT || format == CF_UNICODETEXT
  }

  /** What was asked and answered so far, and the format set. */
  datatype Exchange = Exchange(
    format: uint32, enabled: bool, answered: nat, taken: seq<Taken>, asked: seq<uint32>, received: seq<Text>)

  function ExchangeOf(c: Conversation): Exchange {
    var s := c.clipboard;
    Exchange(s.requestedFormat, s.enabled, c.answered, c.taken, Asked(s.log), Received(s.log))
  }

  /** Each text stems from a request of its own and was decoded in the format of the last request sent by then; no two
      texts were decoded for the same one. */
  ghost predicate InOrder(x: Exchange, locale: Locale) {
    && |x.taken| == |x.received|
    && (forall i :: 0 <= i < |x.taken| ==>
          && x.taken[i].answered <= x.taken[i].latest < |x.asked| && x.taken[i].answered < x.answered
          && Decode(x.taken[i].data, x.asked[x.taken[i].latest], locale) == Some(x.received[i]))
    && (forall i, j :: 0 <= i < j < |x.taken| ==>
          x.taken[i].answered < x.taken[j].answered && x.taken[i].latest < x.taken[j].latest)
  }

  /** A format is set only while enabled, and then the last request is one no text was taken for. */
  ghost predicate Awaited(x: Exchange) {
    x.format != 0 ==>
      && x.enabled
      && |x.asked| > 0 && x.asked[|x.asked| - 1] == x.format
      && forall i :: 0 <= i < |x.taken| ==> x.taken[i].latest < |x.asked| - 1
  }

  ghost predicate ExchangeInv(x: Exchange, locale: Locale) {
    && x.answered <= |x.asked|
    && (forall i :: 0 <= i < |x.asked| ==> IsTextFormat(x.asked[i]))
    && Awaited(x)
    && InOrder(x, locale)
  }

  ghost predicate Inv(c: Conversation, locale: Locale) {
    ExchangeInv(ExchangeOf(c), locale)
  }

  /** No announcement is missing, and a started channel is open. */
  ghost predicate Announced(s: State) {
    && (s.initialized ==> s.open)
    && (s.Announceable() && s.announcements == 0 ==> !Stale(s.log))
  }

  lemma FormatListAsksAtMostOnce(s: State, formats: seq<uint32>)
    ensures var n := OnClientFormatList(s, formats);
            && Asked(n.log) == Asked(s.log) + (if n.requestedFormat != 0 then [n.requestedFormat] else [])
            && Received(n.log) == Received(s.log)
            && (Stale(n.log) <==> Stale(s.log))
            && (n.requestedFormat != 0 ==> s.enabled && IsTextFormat(n.requestedFormat))
  {
    ChosenFormat(formats);
    var format := OnClientFormatList(s, formats).requestedFormat;
    Logged(s.log, FormatListAnswered);
    Logged(s.log + [FormatListAnswered], DataRequested(format));
  }

  lemma DataRequestOnlyAnswers(s: State, format: uint32, locale: Locale)
    ensures var n := OnClientFormatDataRequest(s, format, locale);
            && Asked(n.log) == Asked(s.log) && Received(n.log) == Received(s.log)
            && (Stale(n.log) <==> Stale(s.log))
            && n == s.(log := n.log)
  {
    Logged(s.log, OnClientFormatDataRequest(s, format, locale).log[|s.log|]);
  }

  lemma ResponseIsTakenAtMostOnce(s: State, ok: bool, data: Option<seq<Byte>>, locale: Locale)
    ensures var n := OnClientFormatDataResponse(s, ok, data, locale);
            && Asked(n.log) == Asked(s.log)
            && (Stale(n.log) <==> Stale(s.log))
            && (n.log == s.log ==> n == s)
            && (n.log != s.log ==>
                  && s.enabled && s.requestedFormat != 0
                  && n == s.(requestedFormat := 0, log := n.log)
                  && Decode(data, s.requestedFormat, locale).Some?
                  && Received(n.log) == Received(s.log) + [Decode(data, s.requestedFormat, locale).value])
  {
    var text := Decode(data, s.requestedFormat, locale);
    if text.Some? {
      Logged(s.log, TextChanged(text.value));
    }
  }

  /** A format list: at most one more request. */
  function Asks(x: Exchange, format: uint32): Exchange {
    x.(format := format, asked := x.asked + if format != 0 then [format] else [])
  }

  lemma AsksInOrder(x: Exchange, format: uint32, locale: Locale)
    requires ExchangeInv(x, locale) && (format != 0 ==> x.enabled && IsTextFormat(format))
    ensures ExchangeInv(Asks(x, format), locale)
  {
  }

  /** An answer: at most one more text. */
  function Takes(x: Exchange, data: Option<seq<Byte>>, text: Option<Text>): Exchange {
    if text.None? then x.(answered := x.answered + 1)
    else x.(format := 0, answered := x.answered + 1, received := x.received + [text.value],
            taken := x.taken + [Taken(x.answered, if |x.asked| > 0 then |x.asked| - 1 else 0, data)])
  }

  lemma TakesInOrder(x: Exchange, data: Option<seq<Byte>>, text: Option<Text>, locale: Locale)
    requires ExchangeInv(x, locale) && x.answered < |x.asked|
    requires text.Some? ==> x.format != 0 && Decode(data, x.format, locale) == text
    ensures ExchangeInv(Takes(x, data, text), locale)
  {
  }

  /** A step that asks for nothing and takes nothing, and may end the request under way. */
  ghost predicate Quiet(x: Exchange, y: Exchange) {
    && y.taken == x.taken && y.asked == x.asked && y.received == x.received && x.answered <= y.answered <= |x.asked|
    && (y.format == 0 || (y.format == x.format && y.enabled == x.enabled))
  }

  lemma QuietInOrder(x: Exchange, y: Exchange, locale: Locale)
    requires ExchangeInv(x, locale) && Quiet(x, y)
    ensures ExchangeInv(y, locale)
  {
  }

  lemma FormatListAsks(c: Conversation, formats: seq<uint32>)
    ensures var s := OnClientFormatList(c.clipboard, formats);
            && ExchangeOf(c.(clipboard := s)) == Asks(ExchangeOf(c), s.requestedFormat)
            && (s.requestedFormat != 0 ==> c.clipboard.enabled && IsTextFormat(s.requestedFormat))
  {
    FormatListAsksAtMostOnce(c.clipboard, formats);
  }

  lemma AnswerTakes(c: Conversation, ok: bool, data: Option<seq<Byte>>, locale: Locale) returns (text: Option<Text>)
    requires c.clipboard.open && c.answered < |Asked(c.clipboard.log)|
    ensures ExchangeOf(Answered(c, ok, data, locale)) == Takes(ExchangeOf(c), data, text)
    ensures var format := c.clipboard.requestedFormat;
            text.Some? ==> format != 0 && Decode(data, format, locale) == text
  {
    var s := c.clipboard;
    ResponseIsTakenAtMostOnce(s, ok, data, locale);
    text := if OnClientFormatDataResponse(s, ok, data, locale).log == s.log then None
            else Decode(data, s.requestedFormat, locale);
  }

  lemma StepKeepsInv(c: Conversation, e: Event, locale: Locale)
    requires Inv(c, locale)
    ensures Inv(Step(c, e, locale), locale)
  {
    var s, x := c.clipboard, ExchangeOf(c);
    if e.FormatList? && s.open {
      FormatListAsks(c, e.formats);
      AsksInOrder(x, OnClientFormatList(s, e.formats).requestedFormat, locale);
    } else if e.Answer? && s.open && c.answered < |Asked(s.log)| {
      var text := AnswerTakes(c, e.ok, e.data, locale);
      TakesInOrder(x, e.data, text, locale);
    } else if !e.FormatList? && !e.Answer? {
      QuietStep(c, e, locale);
      QuietInOrder(x, ExchangeOf(Step(c, e, locale)), locale);
    }
  }

  lemma QuietStep(c: Conversation, e: Event, locale: Locale)
    requires !e.FormatList? && !e.Answer? && c.answered <= |Asked(c.clipboard.log)|
    ensures Quiet(ExchangeOf(c), ExchangeOf(Step(c, e, locale)))
  {
    match e {
      case DataRequest(format) => DataRequestOnlyAnswers(c.clipboard, format, locale);
      case Announcing => Logged(c.clipboard.log, FormatListSent);
      case Stopping =>
      case _ => OfferIsQuiet(c, e, locale);
    }
  }

  lemma OfferIsQuiet(c: Conversation, e: Event, locale: Locale)
    requires (e.Starting? || e.Enabling? || e.Sharing?) && c.answered <= |Asked(c.clipboard.log)|
    ensures Quiet(ExchangeOf(c), ExchangeOf(Step(c, e, locale)))
  {
    Logged(c.clipboard.log, OfferChanged);
  }

  /** Over every run with such a client, the texts taken are answers to requests of their own, in order: each is
      decoded in the format of the last request sent by then, and for no request two texts are taken. */
  lemma {:induction false} TextsAnswerRequestsInOrder(events: seq<Event>, locale: Locale)
    ensures Inv(Run(events, locale), locale)
  {
    if |events| > 0 {
      TextsAnswerRequestsInOrder(events[..|events| - 1], locale);
      StepKeepsInv(Run(events[..|events| - 1], locale), events[|events| - 1], locale);
    }
  }

  /** What a successful answer with this data adds to the texts taken. */
  function TextTaken(c: Conversation, data: Option<seq<Byte>>, locale: Locale): Option<Text> {
    var before := Received(c.clipboard.log);
    var after := Received(Step(c, Answer(true, data), locale).clipboard.log);
    if |after| > |before| then Some(after[|before|]) else None
  }

  lemma TextTakenIs(c: Conversation, data: Option<seq<Byte>>, locale: Locale)
    requires c.clipboard.open && c.answered < |Asked(c.clipboard.log)|
    requires c.clipboard.requestedFormat != 0 ==> c.clipboard.enabled
    ensures TextTaken(c, data, locale) == Decode(data, c.clipboard.requestedFormat, locale)
  {
    ResponseIsTakenAtMostOnce(c.clipboard, true, data, locale);
  }

  /** Both are Unicode or neither is. */
  predicate SameEncoding(a: uint32, b: uint32) {
    a == CF_UNICODETEXT <==> b == CF_UNICODETEXT
  }

  lemma DecodesAlike(data: Option<seq<Byte>>, a: uint32, b: uint32, locale: Locale)
    requires IsTextFormat(a) && IsTextFormat(b) && SameEncoding(a, b)
    ensures Decode(data, a, locale) == Decode(data, b, locale)
  {
  }

  /** A single byte is no Unicode text, but it is 8-bit text; without a format nothing is taken. */
  lemma DecodesOtherwise(a: uint32, b: uint32, locale: Locale) returns (data: Option<seq<Byte>>)
    requires IsTextFormat(b)
    requires a == 0 || (IsTextFormat(a) && !SameEncoding(a, b))
    ensures Decode(data, a, locale) != Decode(data, b, locale)
  {
    data := if a == 0 then Some([65, 0]) else Some([65]);
  }

  /** The format set is that of the last request, and all requests are for text. */
  lemma LastAsked(c: Conversation, locale: Locale)
    requires Inv(c, locale) && c.answered < |Asked(c.clipboard.log)|
    ensures var format, asked := c.clipboard.requestedFormat, Asked(c.clipboard.log);
            && IsTextFormat(asked[c.answered]) && IsTextFormat(asked[|asked| - 1])
            && (format != 0 ==> c.clipboard.enabled && format == asked[|asked| - 1])
  {
  }

  /** Whatever the answer, what is taken is what its data is in this format. */
  ghost predicate TakesAs(c: Conversation, format: uint32, locale: Locale) {
    forall data :: TextTaken(c, data, locale) == Decode(data, format, locale)
  }

  lemma ReadAsMeantIff(c: Conversation, last: uint32, asked: uint32, locale: Locale)
    requires c.clipboard.open && c.answered < |Asked(c.clipboard.log)|
    requires IsTextFormat(last) && IsTextFormat(asked)
    requires c.clipboard.requestedFormat != 0 ==> c.clipboard.enabled && c.clipboard.requestedFormat == last
    ensures TakesAs(c, asked, locale) <==> c.clipboard.requestedFormat != 0 && SameEncoding(last, asked)
  {
    if c.clipboard.requestedFormat != 0 && SameEncoding(last, asked) {
      forall data
        ensures TextTaken(c, data, locale) == Decode(data, asked, locale)
      {
        TextTakenIs(c, data, locale);
        DecodesAlike(data, last, asked, locale);
      }
    } else {
      var data := DecodesOtherwise(c.clipboard.requestedFormat, asked, locale);
      TextTakenIs(c, data, locale);
    }
  }

  /** Whatever the client answers to its next request is taken as the data it was asked for exactly if a request is
      under way and the last one sent, which may be a later one, asks for the same encoding. */
  ghost predicate ReadAsMeantIffSameEncoding(c: Conversation, locale: Locale) {
    var asked := Asked(c.clipboard.log);
    c.clipboard.open && c.answered < |asked| ==>
      (TakesAs(c, asked[c.answered], locale) <==>
        c.clipboard.requestedFormat != 0 && SameEncoding(asked[|asked| - 1], asked[c.answered]))
  }

  lemma ReadIff(c: Conversation, locale: Locale)
    requires Inv(c, locale)
    ensures ReadAsMeantIffSameEncoding(c, locale)
  {
    var asked := Asked(c.clipboard.log);
    if c.clipboard.open && c.answered < |asked| {
      LastAsked(c, locale);
      ReadAsMeantIff(c, asked[|asked| - 1], asked[c.answered], locale);
    }
  }

  /** This holds after every run. */
  lemma AnswersAreReadAsMeantIff(events: seq<Event>, locale: Locale)
    ensures ReadAsMeantIffSameEncoding(Run(events, locale), locale)
  {
    TextsAnswerRequestsInOrder(events, locale);
    ReadIff(Run(events, locale), locale);
  }

  /** Unicode text and then 8-bit text are offered, and the client answers the first request. */
  lemma TwoOffers(c: Conversation, data: seq<Byte>, locale: Locale)
    requires c.clipboard.open && c.clipboard.enabled && Asked(c.clipboard.log) == [] && c.answered == 0
    requires |data| <= MAXIMUM_TEXT_BYTES
    ensures var n := Step(Step(c, FormatList([CF_UNICODETEXT]), locale), FormatList([CF_TEXT]), locale);
            && n.clipboard.open && n.answered == 0
            && Asked(n.clipboard.log) == [CF_UNICODETEXT, CF_TEXT]
            && TextTaken(n, Some(data), locale) == Some(WithoutTrailingNuls(locale.fromLocal(data)))
  {
    var first := Step(c, FormatList([CF_UNICODETEXT]), locale);
    OfferIsAskedFor(c, [CF_UNICODETEXT], locale);
    OfferIsAskedFor(first, [CF_TEXT], locale);
    TextTakenIs(Step(first, FormatList([CF_TEXT]), locale), Some(data), locale);
  }

  lemma OfferIsAskedFor(c: Conversation, formats: seq<uint32>, locale: Locale)
    requires c.clipboard.open && c.clipboard.enabled
    requires |formats| == 1 && formats[0] in {CF_TEXT, CF_UNICODETEXT}
    ensures var n := Step(c, FormatList(formats), locale);
            && n.clipboard.open && n.clipboard.enabled && n.answered == c.answered
            && n.clipboard.requestedFormat == formats[0]
            && Asked(n.clipboard.log) == Asked(c.clipboard.log) + [formats[0]]
  {
    ChosenOfOne(formats);
    FormatListAsksAtMostOnce(c.clipboard, formats);
  }

  lemma ChosenOfOne(formats: seq<uint32>)
    requires |formats| == 1 && formats[0] in {CF_TEXT, CF_UNICODETEXT}
    ensures Chosen(formats) == formats[0]
  {
    ChosenFormat(formats);
    assert formats[0] in formats;
  }

  /** The client offers Unicode text, then 8-bit text, and answers the first request: its Unicode data is taken for
      8-bit text. */
  lemma AnswerMayBeMisread(events: seq<Event>, data: seq<Byte>, locale: Locale)
    requires events == [Starting(true, true), Enabling(true), FormatList([CF_UNICODETEXT]), FormatList([CF_TEXT])]
    requires |data| <= MAXIMUM_TEXT_BYTES
    ensures var c := Run(events, locale);
            && c.clipboard.open && c.answered == 0 && Asked(c.clipboard.log) == [CF_UNICODETEXT, CF_TEXT]
            && TextTaken(c, Some(data), locale) == Some(WithoutTrailingNuls(locale.fromLocal(data)))
  {
    RunFour(events, locale);
    EnabledAtOnce(locale);
    TwoOffers(Step(Step(START, events[0], locale), events[1], locale), data, locale);
  }

  lemma RunFour(e: seq<Event>, locale: Locale)
    requires |e| == 4
    ensures Run(e, locale) == Step(Step(Step(Step(START, e[0], locale), e[1], locale), e[2], locale), e[3], locale)
  {
    assert Run(e[..0], locale) == START;
    assert e[..1][..0] == e[..0] && e[..2][..1] == e[..1] && e[..3][..2] == e[..2];
    assert Run(e[..2], locale) == Step(Step(START, e[0], locale), e[1], locale);
  }

  lemma EnabledAtOnce(locale: Locale)
    ensures var c := Step(Step(START, Starting(true, true), locale), Enabling(true), locale);
            c.clipboard.open && c.clipboard.enabled && Asked(c.clipboard.log) == [] && c.answered == 0
  {
    Logged([], OfferChanged);
    Logged([OfferChanged], OfferChanged);
  }

  // With any client.

  function HandleAll(events: seq<Event>, locale: Locale): State {
    if |events| == 0 then INITIAL
    else Handle(HandleAll(events[..|events| - 1], locale), events[|events| - 1], locale)
  }

  /** The requests sent and the texts taken, in order. */
  function Transcript(log: seq<Happening>): seq<Happening> {
    if |log| == 0 then []
    else
      var h := log[|log| - 1];
      Transcript(log[..|log| - 1]) + if h.DataRequested? || h.TextChanged? then [h] else []
  }

  lemma Transcribed(log: seq<Happening>, h: Happening)
    ensures Transcript(log + [h]) == Transcript(log) + if h.DataRequested? || h.TextChanged? then [h] else []
  {
    assert (log + [h])[..|log|] == log;
  }

  ghost predicate EachFollowsARequest(x: seq<Happening>) {
    forall i :: 0 <= i < |x| && x[i].TextChanged? ==> i > 0 && x[i - 1].DataRequested?
  }

  /** No two texts are taken without a request in between, and a format that is set is that of a request after which no
      text was taken. */
  ghost predicate Alternating(format: uint32, x: seq<Happening>) {
    && EachFollowsARequest(x)
    && (format != 0 ==> |x| > 0 && x[|x| - 1] == DataRequested(format))
  }

  lemma HandlingAlternates(s: State, e: Event, locale: Locale)
    requires Alternating(s.requestedFormat, Transcript(s.log))
    ensures var t := Handle(s, e, locale); Alternating(t.requestedFormat, Transcript(t.log))
  {
    if e.FormatList? && s.open {
      FormatListTranscribed(s, e.formats);
      RequestAlternates(s.requestedFormat, Transcript(s.log), OnClientFormatList(s, e.formats).requestedFormat);
    } else if e.Answer? && s.open {
      ResponseAlternates(s, e.ok, e.data, locale);
    } else {
      OthersLeaveTheTranscript(s, e, locale);
    }
  }

  lemma RequestAlternates(before: uint32, x: seq<Happening>, format: uint32)
    requires Alternating(before, x)
    ensures Alternating(format, x + if format != 0 then [DataRequested(format)] else [])
  {
  }

  lemma FormatListTranscribed(s: State, formats: seq<uint32>)
    ensures var t := OnClientFormatList(s, formats);
            Transcript(t.log) ==
            Transcript(s.log) + if t.requestedFormat != 0 then [DataRequested(t.requestedFormat)] else []
  {
    Transcribed(s.log, FormatListAnswered);
    Transcribed(s.log + [FormatListAnswered], DataRequested(OnClientFormatList(s, formats).requestedFormat));
  }

  lemma OthersLeaveTheTranscript(s: State, e: Event, locale: Locale)
    requires s.open ==> !e.FormatList? && !e.Answer?
    ensures var t := Handle(s, e, locale);
            Transcript(t.log) == Transcript(s.log) && t.requestedFormat in {0, s.requestedFormat}
  {
    var h := OthersLogAtMostOne(s, e, locale);
    Transcribed(s.log, h);
  }

  lemma OthersLogAtMostOne(s: State, e: Event, locale: Locale) returns (h: Happening)
    requires s.open ==> !e.FormatList? && !e.Answer?
    ensures var t := Handle(s, e, locale);
            && !h.DataRequested? && !h.TextChanged? && (t.log == s.log || t.log == s.log + [h])
            && t.requestedFormat in {0, s.requestedFormat}
  {
    var t := Handle(s, e, locale);
    h := if |t.log| > |s.log| then t.log[|s.log|] else OfferChanged;
  }

  /** A response adds at most one text, and that is the data decoded in the format of the request it follows. */
  lemma ResponseAlternates(s: State, ok: bool, data: Option<seq<Byte>>, locale: Locale)
    requires Alternating(s.requestedFormat, Transcript(s.log))
    ensures var t, x := OnClientFormatDataResponse(s, ok, data, locale), Transcript(s.log);
            && Alternating(t.requestedFormat, Transcript(t.log))
            && (Transcript(t.log) == x
                || (&& |x| > 0 && x[|x| - 1].DataRequested?
                    && var text := Decode(data, x[|x| - 1].format, locale);
                       text.Some? && Transcript(t.log) == x + [TextChanged(text.value)]))
  {
    var text := Decode(data, s.requestedFormat, locale);
    if text.Some? {
      Transcribed(s.log, TextChanged(text.value));
    }
  }

  /** Over every run with any client, requests for data and texts taken alternate: there is a request before every text
      and after the text before it. */
  lemma {:induction false} AtMostOneTextPerRequest(events: seq<Event>, locale: Locale)
    ensures var s := HandleAll(events, locale); Alternating(s.requestedFormat, Transcript(s.log))
  {
    if |events| > 0 {
      AtMostOneTextPerRequest(events[..|events| - 1], locale);
      HandlingAlternates(HandleAll(events[..|events| - 1], locale), events[|events| - 1], locale);
    }
  }

  // Announcements.

  lemma HandlingStaysAnnounced(s: State, e: Event, locale: Locale)
    requires Announced(s)
    ensures Announced(Handle(s, e, locale))
  {
    match e {
      case FormatList(formats) => FormatListAsksAtMostOnce(s, formats);
      case DataRequest(format) => DataRequestOnlyAnswers(s, format, locale);
      case Answer(ok, data) => ResponseIsTakenAtMostOnce(s, ok, data, locale);
      case _ => OwnStepStaysAnnounced(s, e, locale);
    }
  }

  lemma OwnStepStaysAnnounced(s: State, e: Event, locale: Locale)
    requires Announced(s) && !e.FormatList? && !e.DataRequest? && !e.Answer?
    ensures Announced(Handle(s, e, locale))
  {
    Logged(s.log, if e.Announcing? then FormatListSent else OfferChanged);
  }

  /** Over every run, whenever the client may know about a text and no announcement is queued, one has been sent since
      the channel was started, the clipboard enabled and the text set. */
  lemma {:induction false} EveryOfferIsAnnounced(events: seq<Event>, locale: Locale)
    ensures Announced(HandleAll(events, locale))
  {
    if |events| > 0 {
      EveryOfferIsAnnounced(events[..|events| - 1], locale);
      HandlingStaysAnnounced(HandleAll(events[..|events| - 1], locale), events[|events| - 1], locale);
    }
  }

  // Starting the channel.

  /** In every run, an initialization that reports success leaves the channel started exactly if the context was not
      there before or was started already. */
  lemma SuccessMeansStartedIff(events: seq<Event>, created: bool, started: bool, locale: Locale)
    requires InitializeSucceeds(HandleAll(events, locale), created, started)
    ensures var s := HandleAll(events, locale);
            Initialize(s, created, started).initialized <==> !s.open || s.initialized
  {
    EveryOfferIsAnnounced(events, locale);
  }

  /** A context can be there without being started. */
  lemma ContextMayNotBeStarted(events: seq<Event>, locale: Locale)
    requires events == [Starting(true, false)]
    ensures var s := HandleAll(events, locale); s.open && !s.initialized
  {
    assert HandleAll(events[..0], locale) == INITIAL;
  }

  lemma StaysFailed(s: State, e: Event, locale: Locale)
    requires s.open && !s.initialized && !e.Stopping?
    ensures Handle(s, e, locale).open && !Handle(s, e, locale).initialized
  {
  }

  /** Then no later initialization of this clipboard starts the channel before it is closed, yet each reports
      success. */
  lemma {:induction false} FailedStartIsNotRetried(before: seq<Event>, after: seq<Event>, locale: Locale)
    requires var s := HandleAll(before, locale); s.open && !s.initialized
    requires Stopping !in after
    ensures var s := HandleAll(before + after, locale);
            && s.open && !s.initialized
            && forall created, started ::
                 InitializeSucceeds(s, created, started) && !Initialize(s, created, started).initialized
  {
    var run := before + after;
    if |after| > 0 {
      assert run[..|run| - 1] == before + after[..|after| - 1];
      FailedStartIsNotRetried(before, after[..|after| - 1], locale);
      StaysFailed(HandleAll(run[..|run| - 1], locale), run[|run| - 1], locale);
    } else {
      assert run == before;
    }
  }

  /** This is an initialization that fails. */
  predicate Fails(s: State, e: Event) {
    e.Starting? && !InitializeSucceeds(s, e.created, e.started)
  }

  /** The connection ends after an initialization that fails, and closes the clipboard. */
  ghost predicate ClosedAfterFailure(events: seq<Event>, locale: Locale) {
    forall i :: 0 < i < |events| && Fails(HandleAll(events[..i - 1], locale), events[i - 1]) ==> events[i].Stopping?
  }

  lemma ClosedBefore(events: seq<Event>, locale: Locale)
    requires |events| > 0 && ClosedAfterFailure(events, locale)
    ensures ClosedAfterFailure(events[..|events| - 1], locale)
  {
    var before := events[..|events| - 1];
    forall i | 0 < i < |before| && Fails(HandleAll(before[..i - 1], locale), before[i - 1])
      ensures before[i].Stopping?
    {
      assert before[..i - 1] == events[..i - 1] && before[i - 1] == events[i - 1] && before[i] == events[i];
    }
  }

  /** The last event was an initialization that failed. */
  ghost predicate JustFailed(events: seq<Event>, locale: Locale) {
    |events| > 0 && Fails(HandleAll(events[..|events| - 1], locale), events[|events| - 1])
  }

  lemma {:induction false} OpenMeansStarted(events: seq<Event>, locale: Locale)
    requires ClosedAfterFailure(events, locale)
    ensures var s := HandleAll(events, locale); s.open && !s.initialized ==> JustFailed(events, locale)
  {
    if |events| > 0 {
      var before := events[..|events| - 1];
      ClosedBefore(events, locale);
      OpenMeansStarted(before, locale);
      if JustFailed(before, locale) {
        assert before[..|before| - 1] == events[..|before| - 1];
      }
      OnlyFailureLeavesItUnstarted(HandleAll(before, locale), events[|events| - 1], locale);
    }
  }

  lemma OnlyFailureLeavesItUnstarted(s: State, e: Event, locale: Locale)
    ensures var t := Handle(s, e, locale);
            t.open && !t.initialized ==> Fails(s, e) || (s.open && !s.initialized && !e.Stopping?)
  {
  }

  /** As the connection uses the clipboard, an initialization reports success exactly if the channel is started
      afterwards. */
  lemma SuccessMeansStarted(events: seq<Event>, e: Event, locale: Locale)
    requires e.Starting? && ClosedAfterFailure(events + [e], locale)
    ensures var s := HandleAll(events, locale);
            InitializeSucceeds(s, e.created, e.started) <==> Initialize(s, e.created, e.started).initialized
  {
    var all := events + [e];
    assert all[..|all| - 1] == events;
    ClosedBefore(all, locale);
    OpenMeansStarted(events, locale);
    EveryOfferIsAnnounced(events, locale);
    NothingFollowsAFailure(events, e, locale);
  }

  lemma NothingFollowsAFailure(events: seq<Event>, e: Event, locale: Locale)
    requires ClosedAfterFailure(events + [e], locale) && !e.Stopping?
    ensures !JustFailed(events, locale)
  {
    var all, n := events + [e], |events|;
    assert n > 0 ==> all[..n - 1] == events[..n - 1] && all[n - 1] == events[n - 1] && all[n] == e;
  }

  // What is offered.

  /** This text was set, and none after it. */
  ghost predicate SetLast(events: seq<Event>, text: Text) {
    exists i :: SetAt(events, text, i)
  }

  predicate SetAt(events: seq<Event>, text: Text, i: nat) {
    i < |events| && events[i] == Sharing(text) && forall k :: i < k < |events| ==> !events[k].Sharing?
  }

  lemma SetLastNext(before: seq<Event>, e: Event, text: Text)
    ensures SetLast(before + [e], text) <==> if e.Sharing? then e.text == text else SetLast(before, text)
  {
    var events := before + [e];
    if e.Sharing? {
      assert e.text == text ==> SetAt(events, text, |before|);
    } else {
      forall i: nat
        ensures SetAt(events, text, i) <==> SetAt(before, text, i)
      {
        assert events[|before|] == e && (forall k :: 0 <= k < |before| ==> events[k] == before[k]);
      }
    }
  }

  /** The text offered is the one set last, whatever else happened. */
  lemma {:induction false} LastTextIsOffered(events: seq<Event>, text: Text, locale: Locale)
    ensures HandleAll(events, locale).serverText == Some(text) <==> SetLast(events, text)
  {
    if |events| > 0 {
      var before, e := events[..|events| - 1], events[|events| - 1];
      assert events == before + [e];
      LastTextIsOffered(before, text, locale);
      TextFollows(HandleAll(before, locale), e, locale);
      SetLastNext(before, e, text);
    }
  }

  lemma TextFollows(s: State, e: Event, locale: Locale)
    ensures Handle(s, e, locale).serverText == if e.Sharing? then Some(e.text) else s.serverText
  {
  }

  /** The clipboard is enabled as it was set last, and disabled when an open channel is closed. */
  lemma EnablingFollows(s: State, e: Event, locale: Locale)
    ensures Handle(s, e, locale).enabled ==
            if e.Enabling? then e.on else if e.Stopping? && s.open then false else s.enabled
  {
  }

  predicate Shares(h: Happening) {
    h.FormatListSent? || h.DataRequested? || h.DataAnswered? || h.TextChanged?
  }

  /** While disabled, an event announces nothing, asks for nothing, hands out nothing and takes nothing. */
  lemma DisabledSharesNothing(s: State, e: Event, locale: Locale)
    requires !s.enabled
    ensures var t := Handle(s, e, locale);
            s.log <= t.log && forall i :: |s.log| <= i < |t.log| ==> !Shares(t.log[i])
  {
  }

  /** After an open channel is closed, nothing is shared until the clipboard is enabled again. */
  lemma {:induction false} ClosedSharesNothing(before: seq<Event>, after: seq<Event>, locale: Locale)
    requires HandleAll(before, locale).open && Enabling(true) !in after
    ensures var s, t := HandleAll(before, locale), HandleAll(before + [Stopping] + after, locale);
            && !t.enabled && s.log <= t.log && forall i :: |s.log| <= i < |t.log| ==> !Shares(t.log[i])
  {
    var run, s := before + [Stopping] + after, HandleAll(before, locale);
    if |after| > 0 {
      assert run[..|run| - 1] == before + [Stopping] + after[..|after| - 1];
      assert run[|run| - 1] == after[|after| - 1];
      ClosedSharesNothing(before, after[..|after| - 1], locale);
      DisabledSharesNothing(HandleAll(run[..|run| - 1], locale), run[|run| - 1], locale);
      EnablingFollows(HandleAll(run[..|run| - 1], locale), run[|run| - 1], locale);
    } else {
      assert run == before + [Stopping] && run[..|run| - 1] == before;
    }
  }

  /** Whether an event changes what is offered: the text is set, or the clipboard enabled, or the channel started. */
  predicate ChangesOffer(s: State, e: Event) {
    || e.Sharing?
    || (e.Enabling? && e.on && !s.enabled)
    || (e.Starting? && !s.open && e.created && e.started)
  }

  /** An announcement is queued exactly when an event changes what is offered and leaves the channel started, the
      clipboard enabled and a text set; and each queued one runs once. */
  lemma WhatIsQueued(s: State, e: Event, locale: Locale)
    ensures var t := Handle(s, e, locale);
            t.announcements == s.announcements
              + (if ChangesOffer(s, e) && t.initialized && t.enabled && t.serverText.Some? then 1 else 0)
              - (if e.Announcing? && s.announcements > 0 then 1 else 0)
  {
  }
}
