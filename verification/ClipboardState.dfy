/** The state of a clipboard and what its handlers do to it. */
module ClipboardState {
  import opened Basics
  import opened ClipboardCodec

  /** What passed between the clipboard and its surroundings. */
  datatype Happening =
    | OfferChanged
    | FormatListSent
    | FormatListAnswered
    | DataRequested(format: uint32)
    | DataAnswered(data: seq<Byte>)
    | DataRefused
    | TextChanged(text: Text)

  datatype State = State(
    serverText: Option<Text>,
    requestedFormat: uint32,
    open: bool,
    initialized: bool,
    enabled: bool,
    announcements: nat,
    log: seq<Happening>)
  {
    /** There is a text the client may know about. */
    predicate Announceable() {
      initialized && enabled && serverText.Some?
    }

    /** What there is to announce has changed: an announcement is queued in the event loop if there is a text. */
    function Offer(): State {
      var queued := if Announceable() then announcements + 1 else announcements;
      this.(announcements := queued).Log(OfferChanged)
    }

    function Log(h: Happening): State {
      this.(log := log + [h])
    }
  }

  const INITIAL := State(None, 0, false, false, false, 0, [])

  /** The format asked for: Unicode text if offered anywhere, else the first of the 8-bit text formats, else none. */
  ghost predicate IsChosen(formats: seq<uint32>, format: uint32) {
    if 13 in formats then format == 13
    else if 1 in formats || 7 in formats then
      exists i :: 0 <= i < |formats| && formats[i] == format && (format == 1 || format == 7)
        && forall k :: 0 <= k < i ==> formats[k] != 1 && formats[k] != 7
    else format == 0
  }

  function Chosen(formats: seq<uint32>): uint32 {
    if CF_UNICODETEXT in formats then CF_UNICODETEXT else FirstLocalFormat(formats, 0)
  }

  function FirstLocalFormat(formats: seq<uint32>, from: nat): uint32
    requires from <= |formats|
    decreases |formats| - from
  {
    if from == |formats| then 0
    else if formats[from] == CF_TEXT || formats[from] == CF_OEMTEXT then formats[from]
    else FirstLocalFormat(formats, from + 1)
  }

  /** The context exists afterwards unless creating it failed; a context that exists is never started again. */
  function Initialize(s: State, created: bool, started: bool): State {
    if s.open || !created then s
    else if !started then s.(open := true)
    else s.(open := true, initialized := true).Offer()
  }

  predicate InitializeSucceeds(s: State, created: bool, started: bool) {
    s.open || (created && started)
  }

  function SetEnabled(s: State, on: bool): State {
    if s.enabled == on then s
    else
      var changed := s.(enabled := on, requestedFormat := 0);
      if on then changed.Offer() else changed
  }

  function SetServerText(s: State, text: Text): State {
    s.(serverText := Some(text)).Offer()
  }

  function Close(s: State): State {
    if !s.open then s else s.(open := false, initialized := false, enabled := false, requestedFormat := 0)
  }

  function SendServerData(s: State): State {
    if !s.Announceable() || !s.open then s else s.Log(FormatListSent)
  }

  function OnClientFormatList(s: State, formats: seq<uint32>): State {
    var format := if s.enabled then Chosen(formats) else 0;
    var answered := s.(requestedFormat := format).Log(FormatListAnswered);
    if format != 0 then answered.Log(DataRequested(format)) else answered
  }

  function OnClientFormatDataRequest(s: State, format: uint32, locale: Locale): State {
    var data := if s.enabled && s.serverText.Some? then Encode(s.serverText.value, format, locale) else [];
    s.Log(if |data| > 0 then DataAnswered(data) else DataRefused)
  }

  function OnClientFormatDataResponse(s: State, ok: bool, data: Option<seq<Byte>>, locale: Locale): State {
    if !s.enabled || !ok then s
    else
      match Decode(data, s.requestedFormat, locale)
      case None => s
      case Some(text) => s.(requestedFormat := 0).Log(TextChanged(text))
  }

  lemma {:induction false} FirstLocalFormatIsFirst(formats: seq<uint32>, from: nat)
    requires from <= |formats|
    requires forall k :: 0 <= k < from ==> formats[k] != CF_TEXT && formats[k] != CF_OEMTEXT
    ensures CF_UNICODETEXT !in formats ==> IsChosen(formats, FirstLocalFormat(formats, from))
    decreases |formats| - from
  {
    if from < |formats| && formats[from] != CF_TEXT && formats[from] != CF_OEMTEXT {
      FirstLocalFormatIsFirst(formats, from + 1);
    }
  }

  lemma ChosenFormat(formats: seq<uint32>)
    ensures IsChosen(formats, Chosen(formats))
  {
    FirstLocalFormatIsFirst(formats, 0);
  }

  /** A request for data is answered exactly while enabled, with a text to offer, in a text format; and Unicode data
      decodes to the text offered, up to its byte order mark and trailing NULs. */
  lemma SharedTextReachesTheClient(s: State, format: uint32, locale: Locale)
    ensures var h := OnClientFormatDataRequest(s, format, locale).log[|s.log|];
            && (h.DataAnswered? <==> s.enabled && s.serverText.Some? && format in {CF_TEXT, CF_OEMTEXT, CF_UNICODETEXT})
            && (!h.DataAnswered? ==> h == DataRefused)
            && (h.DataAnswered? && format == CF_UNICODETEXT && 2 * |s.serverText.value| + 2 <= MAXIMUM_TEXT_BYTES ==>
                  Decode(Some(h.data), format, locale) == Some(WithoutTrailingNuls(WithoutMark(s.serverText.value))))
  {
    if s.serverText.Some? {
      UnicodeRoundTrip(s.serverText.value, locale);
    }
  }

  /** A format list is always answered; then, while enabled, the text format wanted from it is asked for. */
  lemma FormatListIsAnswered(s: State, formats: seq<uint32>, wanted: uint32)
    requires IsChosen(formats, wanted)
    ensures var format := if s.enabled then wanted else 0;
            OnClientFormatList(s, formats) ==
            s.(requestedFormat := format,
               log := s.log + [FormatListAnswered] + if format != 0 then [DataRequested(format)] else [])
  {
    ChosenFormat(formats);
    OnlyOneIsChosen(formats, wanted, Chosen(formats));
  }

  lemma OnlyOneIsChosen(formats: seq<uint32>, a: uint32, b: uint32)
    requires IsChosen(formats, a) && IsChosen(formats, b)
    ensures a == b
  {
  }

  /** The data carries the text in this format. */
  ghost predicate Carries(data: seq<Byte>, text: Text, format: uint32, locale: Locale) {
    if format == 13 then
      && |data| == 2 * |text| + 2 && data[2 * |text|] == data[2 * |text| + 1] == 0
      && forall i :: 0 <= i < |text| ==> data[2 * i] == text[i] % 256 && data[2 * i + 1] == text[i] / 256
    else (format == 1 || format == 7) && data == locale.toLocal(text) + [0]
  }

  /** A request for data is answered with the text in the format asked for, or refused. */
  lemma DataRequestIsAnswered(s: State, format: uint32, locale: Locale)
    ensures var t := OnClientFormatDataRequest(s, format, locale);
            && |t.log| == |s.log| + 1 && t == s.(log := s.log + [t.log[|s.log|]])
            && var h := t.log[|s.log|];
               if s.enabled && s.serverText.Some? && format in {1, 7, 13}
               then h.DataAnswered? && Carries(h.data, s.serverText.value, format, locale)
               else h == DataRefused
  {
    if s.serverText.Some? {
      EncodedCarries(s.serverText.value, format, locale);
    }
  }

  lemma EncodedCarries(text: Text, format: uint32, locale: Locale)
    ensures if format in {1, 7, 13}
            then Encode(text, format, locale) != [] && Carries(Encode(text, format, locale), text, format, locale)
            else Encode(text, format, locale) == []
  {
    OtherFormats(text, format, locale);
    if format == 13 {
      UnicodeEnds(text, locale);
      forall i | 0 <= i < |text|
        ensures Encode(text, 13, locale)[2 * i] == text[i] % 256 && Encode(text, 13, locale)[2 * i + 1] == text[i] / 256
      {
        UnicodeIsLittleEndian(text, locale, i);
      }
    }
  }

  /** An answer is taken exactly while enabled, if it reports success and its data is a text in the format asked for
      last; then the request is done. */
  lemma AnswerIsTakenIff(s: State, ok: bool, data: Option<seq<Byte>>, locale: Locale)
    ensures var t := OnClientFormatDataResponse(s, ok, data, locale);
            if s.enabled && ok && data.Some? && |data.value| <= 16_777_216
               && (s.requestedFormat in {1, 7} || (s.requestedFormat == 13 && |data.value| % 2 == 0))
            then
              && Decode(data, s.requestedFormat, locale).Some?
              && t == s.(requestedFormat := 0,
                         log := s.log + [TextChanged(Decode(data, s.requestedFormat, locale).value)])
            else t == s
  {
    DecodingIsRefusedIff(data, s.requestedFormat, locale);
  }
}
