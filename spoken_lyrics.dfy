/**
 * The text sent to the text-to-speech service (generate_spoken_lyrics.py): every lyric followed
 * by a pause tag, and the endpoint the request goes to. The HTTP request itself is not part of
 * this model.
 */
module SpokenLyrics {
  import opened Wrappers

  /** What create_spoken_lyrics appends after every lyric. */
  const BreakSuffix: string := ". <break time='2s'/>\n"

  /** The service's base URL (API_BASE_URL). */
  const ApiBaseUrl: string := "https://api.elevenlabs.io/v1"

  /** The path segment between the base URL and the voice id. */
  const SpeechPath: string := "/text-to-speech/"

  /**
   * The module-level `lyrics` list as the interpreter reads it. The two lines "Not drinking too
   * much" and "Regular exercise at the gym" have no comma between them, so Python joins them into
   * one entry and the list has 45 entries.
   */
  const Lyrics: seq<string> := [
    "Fitter... happier... ... ",
    "More... productive... ... ",
    "Comfortable... ... ",
    "Not drinking too much... ... " + "Regular exercise at the gym... 3 days a week... ... ",
    "Getting on better with your associate employee contemporaries... ... ",
    "At ease... ... ",
    "Eating well... no more microwave dinners and saturated fats... ... ",
    "A patient, better driver... ... ",
    "A safer car... baby smiling in back seat... ... ",
    "Sleeping well... no bad dreams... ... ",
    "No paranoia... ... ",
    "Careful to all animals... never washing spiders down the plughole... ... ",
    "Keep in contact with old friends... enjoy a drink now and then... ... ",
    "Will frequently check credit at... moral... bank... hole in the wall... ... ",
    "Favours for favours... ... ",
    "Fond but not in love... ... ",
    "Charity standing orders... ... ",
    "On Sundays ring road supermarket... ... ",
    "No killing moths or putting boiling water on the ants... ... ",
    "Car wash... also on Sundays... ... ",
    "No longer afraid of the dark or midday shadows... ... ",
    "Nothing so ridiculously teenage and desperate... ... ",
    "Nothing so childish... ... ",
    "At a better pace... ... ",
    "Slower and more calculated",
    "No chance of escape",
    "Now self-employed... ... ",
    "Concerned but powerless... ... ",
    "An empowered and informed member of society... pragmatism not idealism... ... ",
    "Will not cry in public... ... ",
    "Less chance of illness... ... ",
    "Tires that grip in the wet... shot of baby strapped in back seat... ... ",
    "A good memory... ... ",
    "Still cries at a good film... ... ",
    "Still kisses with saliva... ... ",
    "No longer empty and frantic... ... ",
    "Like a cat... ... ",
    "Tied to a stick... ... ",
    "That's driven into... ... ",
    "Frozen winter shit... the ability to laugh at weakness... ... ",
    "Calm... ... ",
    "Fitter, healthier... and more productive... ... ",
    "A pig... ... ",
    "In a cage... ... ",
    "On antibiotics"
  ]

  /** The list has 45 entries, one fewer than its 46 source lines. */
  lemma LyricsEntryCount()
    ensures |Lyrics| == 45
    ensures Lyrics[3] == "Not drinking too much... ... " + "Regular exercise at the gym... 3 days a week... ... "
  {
  }

  /** The speech text for a list of lyrics: each lyric, in order, followed by BreakSuffix. */
  function Formatted(lyrics: seq<string>): string
  {
    if lyrics == [] then ""
    else Formatted(lyrics[..|lyrics| - 1]) + lyrics[|lyrics| - 1] + BreakSuffix
  }

  /** create_spoken_lyrics: the `+=` loop over the list builds Formatted(lyrics). */
  method CreateSpokenLyrics(lyrics: seq<string>) returns (text: string)
    ensures text == Formatted(lyrics)
  {
    text := "";
    for i := 0 to |lyrics|
      invariant text == Formatted(lyrics[..i])
    {
      assert lyrics[..i + 1][..i] == lyrics[..i];
      text := text + lyrics[i] + BreakSuffix;
    }
    assert lyrics[..|lyrics|] == lyrics;
  }

  /** Sum of the lengths of the lyrics. */
  function TotalLength(lyrics: seq<string>): nat
  {
    if lyrics == [] then 0 else TotalLength(lyrics[..|lyrics| - 1]) + |lyrics[|lyrics| - 1]|
  }

  /** Formatting distributes over concatenation of lyric lists. */
  lemma {:induction false} FormattedAppend(a: seq<string>, b: seq<string>)
    ensures Formatted(a + b) == Formatted(a) + Formatted(b)
    decreases |b|
  {
    if b == [] {
      assert a + b == a;
    } else {
      var init, last := b[..|b| - 1], b[|b| - 1];
      assert (a + b)[..|a + b| - 1] == a + init;
      assert (a + b)[|a + b| - 1] == last;
      assert Formatted(a + b) == Formatted(a + init) + last + BreakSuffix;
      FormattedAppend(a, init);
      assert Formatted(b) == Formatted(init) + last + BreakSuffix;
    }
  }

  /** The text is as long as all lyrics together plus one BreakSuffix per lyric; empty list, empty text. */
  lemma {:induction false} FormattedLength(lyrics: seq<string>)
    ensures |Formatted(lyrics)| == TotalLength(lyrics) + |lyrics| * |BreakSuffix|
    ensures lyrics == [] ==> Formatted(lyrics) == ""
    decreases |lyrics|
  {
    if lyrics != [] {
      FormattedLength(lyrics[..|lyrics| - 1]);
    }
  }

  /** Number of occurrences of character c in s. */
  function CountChar(s: string, c: char): nat
  {
    if s == [] then 0 else CountChar(s[..|s| - 1], c) + (if s[|s| - 1] == c then 1 else 0)
  }

  lemma {:induction false} CountCharAppend(s: string, t: string, c: char)
    ensures CountChar(s + t, c) == CountChar(s, c) + CountChar(t, c)
    decreases |t|
  {
    if t == [] {
      assert s + t == s;
    } else {
      assert (s + t)[..|s + t| - 1] == s + t[..|t| - 1];
      CountCharAppend(s, t[..|t| - 1], c);
    }
  }

  /**
   * When no lyric contains '<', the text holds exactly one tag opening per lyric: one
   * `<break time='2s'/>` per list entry.
   */
  lemma {:induction false} BreakTagPerEntry(lyrics: seq<string>)
    requires forall i :: 0 <= i < |lyrics| ==> CountChar(lyrics[i], '<') == 0
    ensures CountChar(Formatted(lyrics), '<') == |lyrics|
    decreases |lyrics|
  {
    if lyrics != [] {
      var init := lyrics[..|lyrics| - 1];
      BreakTagPerEntry(init);
      CountCharAppend(Formatted(init) + lyrics[|lyrics| - 1], BreakSuffix, '<');
      CountCharAppend(Formatted(init), lyrics[|lyrics| - 1], '<');
      BreakSuffixHasOneTag();
    }
  }

  /** A string without c counts no c. */
  lemma {:induction false} CountCharAbsent(s: string, c: char)
    requires c !in s
    ensures CountChar(s, c) == 0
    decreases |s|
  {
    if s != [] {
      assert s[|s| - 1] in s;
      assert forall x :: x in s[..|s| - 1] ==> x in s;
      CountCharAbsent(s[..|s| - 1], c);
    }
  }

  /** BreakSuffix opens exactly one tag. */
  lemma BreakSuffixHasOneTag()
    ensures CountChar(BreakSuffix, '<') == 1
  {
    BreakSuffixSplits();
    CountCharAppend(BreakSuffixHead, BreakSuffixTail, '<');
    CountCharAppend(". ", "<", '<');
    CountCharAbsent(". ", '<');
    CountCharAbsent(BreakSuffixTail, '<');
    assert CountChar("<", '<') == 1 by {
      assert "<"[..0] == "";
    }
  }

  /** BreakSuffix up to and including its '<', and the rest of it. */
  const BreakSuffixHead: string := ". <"
  const BreakSuffixTail: string := "break time='2s'/>\n"

  /** BreakSuffix is its head followed by its tail, and only the head's last character is '<'. */
  lemma BreakSuffixSplits()
    ensures BreakSuffix == BreakSuffixHead + BreakSuffixTail
    ensures BreakSuffixHead == ". " + "<"
    ensures '<' !in BreakSuffixTail
  {
  }

  /** f"{API_BASE_URL}/text-to-speech/{voice['id']}": the request URL for a voice. */
  function SpeechEndpoint(voiceId: string): (url: string)
    ensures |url| == |ApiBaseUrl| + |SpeechPath| + |voiceId|
    ensures ApiBaseUrl + SpeechPath <= url
    ensures url[|ApiBaseUrl| + |SpeechPath|..] == voiceId
  {
    ApiBaseUrl + SpeechPath + voiceId
  }

  /** Reads the voice id back out of a request URL; None for a URL not under the speech path. */
  function VoiceIdOf(url: string): (voiceId: Option<string>)
    ensures voiceId.Some? ==> ApiBaseUrl + SpeechPath <= url
  {
    var prefix := ApiBaseUrl + SpeechPath;
    if prefix <= url then Some(url[|prefix|..]) else None
  }

  /** The endpoint determines its voice id: different voices get different request URLs. */
  lemma SpeechEndpointRoundTrip(voiceId: string)
    ensures VoiceIdOf(SpeechEndpoint(voiceId)) == Some(voiceId)
  {
  }
}
