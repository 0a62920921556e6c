/** The clipboard object, specified by the functions of ClipboardState. */
module Clipboards {
  import opened Basics
  import opened ClipboardCodec
  import opened ClipboardState

  class Clipboard {
    const locale: Locale
    var serverText: Option<Text>
    var requestedClientFormat: uint32
    var open: bool
    var initialized: bool
    var enabled: bool
    ghost var announcements: nat
    ghost var log: seq<Happening>

    ghost function Model(): State
      reads this
    {
      State(serverText, requestedClientFormat, open, initialized, enabled, announcements, log)
    }

    constructor (locale: Locale)
      ensures this.locale == locale && Model() == INITIAL
    {
      this.locale := locale;
      serverText, requestedClientFormat := None, 0;
      open, initialized, enabled := false, false, false;
      announcements, log := 0, [];
    }

    method Initialize(created: bool, started: bool) returns (ok: bool)
      modifies this
      ensures Model() == ClipboardState.Initialize(old(Model()), created, started)
      ensures ok == InitializeSucceeds(old(Model()), created, started)
    {
      if open {
        return true;
      }
      open := created;
      if !open {
        return false;
      }
      if !started {
        return false;
      }
      initialized := true;
      log := log + [OfferChanged];
      if enabled && serverText.Some? {
        announcements := announcements + 1;
      }
      return true;
    }

    method SetEnabled(on: bool)
      modifies this
      ensures Model() == ClipboardState.SetEnabled(old(Model()), on)
    {
      if enabled == on {
        return;
      }
      enabled := on;
      requestedClientFormat := 0;
      log := log + if on then [OfferChanged] else [];
      if on && initialized && serverText.Some? {
        announcements := announcements + 1;
      }
    }

    predicate Enabled()
      reads this
    {
      initialized && enabled
    }

    method SetServerText(text: Text)
      modifies this
      ensures Model() == ClipboardState.SetServerText(old(Model()), text)
    {
      serverText := Some(text);
      log := log + [OfferChanged];
      if Enabled() {
        announcements := announcements + 1;
      }
    }

    method Close()
      modifies this
      ensures Model() == ClipboardState.Close(old(Model()))
    {
      if !open {
        return;
      }
      open := false;
      initialized := false;
      enabled := false;
      requestedClientFormat := 0;
    }

    method SendServerData()
      modifies this
      ensures Model() == ClipboardState.SendServerData(old(Model()))
    {
      if !Enabled() || serverText.None? || !open {
        return;
      }
      log := log + [FormatListSent];
    }

    method OnClientFormatList(formats: seq<uint32>)
      modifies this
      ensures Model() == ClipboardState.OnClientFormatList(old(Model()), formats)
    {
      requestedClientFormat := 0;
      if enabled {
        ChooseFormat(formats);
      }
      log := log + [FormatListAnswered];
      if requestedClientFormat != 0 {
        log := log + [DataRequested(requestedClientFormat)];
      }
    }

    /** The loop over the offered formats. */
    method ChooseFormat(formats: seq<uint32>)
      requires requestedClientFormat == 0
      modifies this`requestedClientFormat
      ensures requestedClientFormat == Chosen(formats)
    {
      for index := 0 to |formats|
        invariant CF_UNICODETEXT !in formats[..index]
        invariant FirstLocalFormat(formats, 0) ==
                  if requestedClientFormat == 0 then FirstLocalFormat(formats, index) else requestedClientFormat
      {
        if formats[index] == CF_UNICODETEXT {
          requestedClientFormat := CF_UNICODETEXT;
          return;
        }
        if requestedClientFormat == 0 && (formats[index] == CF_TEXT || formats[index] == CF_OEMTEXT) {
          requestedClientFormat := formats[index];
        }
      }
      assert formats[..|formats|] == formats;
    }

    method OnClientFormatDataRequest(format: uint32)
      modifies this
      ensures Model() == ClipboardState.OnClientFormatDataRequest(old(Model()), format, locale)
    {
      var encoded := [];
      if enabled && serverText.Some? {
        encoded := EncodeClipboardText(serverText.value, format, locale);
      }
      log := log + [if |encoded| > 0 then DataAnswered(encoded) else DataRefused];
    }

    method OnClientFormatDataResponse(ok: bool, data: Option<seq<Byte>>)
      modifies this
      ensures Model() == ClipboardState.OnClientFormatDataResponse(old(Model()), ok, data, locale)
    {
      if !enabled || !ok {
        return;
      }
      var text := DecodeClipboardText(data, requestedClientFormat, locale);
      if text.None? {
        return;
      }
      requestedClientFormat := 0;
      log := log + [TextChanged(text.value)];
    }
  }
}
