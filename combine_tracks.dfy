/**
 * How the spoken lyrics and the instrumental are prepared before they are overlaid
 * (combine_spoken_lyrics_with_instrumental.py): the volume adjustments and the silence that
 * lengthens the instrumental so the speech fits.
 *
 * A track is one sample per millisecond (pydub measures length in milliseconds) together with
 * the gain in dB applied to it so far. Applying a gain to the samples is decibel arithmetic on
 * floats and is not part of this model; the gain is carried alongside instead. Silence stays
 * silent under any gain, so padding a track whose gain is pending is the same as padding it
 * after the gain is applied.
 */
module CombineTracks {

  datatype Track = Track(samples: seq<real>, gainDb: int)

  /** len(segment): the track's length in milliseconds. */
  function Length(t: Track): nat
  {
    |t.samples|
  }

  /** AudioSegment.silent(duration=ms): ms milliseconds of zero samples. */
  function Silence(ms: nat): (s: seq<real>)
    ensures |s| == ms && forall i :: 0 <= i < ms ==> s[i] == 0.0
  {
    seq(ms, i => 0.0)
  }

  /**
   * `speech + speech_volume_adj` when the adjustment is non-zero: the speech gets louder by the
   * adjustment. A zero adjustment leaves the track as it is.
   */
  function AdjustSpeech(speech: Track, adjDb: int): (r: Track)
    ensures r.samples == speech.samples
    ensures r.gainDb == speech.gainDb + adjDb
    ensures adjDb == 0 ==> r == speech
  {
    if adjDb != 0 then Track(speech.samples, speech.gainDb + adjDb) else speech
  }

  /**
   * `instrumental - instrumental_volume_adj` when the adjustment is non-zero: a positive
   * adjustment makes the instrumental quieter, the opposite of the speech's sign. A zero
   * adjustment leaves the track as it is.
   */
  function AdjustInstrumental(instrumental: Track, adjDb: int): (r: Track)
    ensures r.samples == instrumental.samples
    ensures r.gainDb == instrumental.gainDb - adjDb
    ensures adjDb == 0 ==> r == instrumental
  {
    if adjDb != 0 then Track(instrumental.samples, instrumental.gainDb - adjDb) else instrumental
  }

  /**
   * The padding rule: when the instrumental ends before the speech placed at `speechPosition`
   * does, silence is appended until they end together. The instrumental is kept as the prefix,
   * only silence follows it, and the result is exactly
   * max(len(instrumental), len(speech) + speech_position) long.
   */
  function PadInstrumental(instrumental: Track, speechLength: nat, speechPosition: int): (r: Track)
    ensures Length(r) == if Length(instrumental) < speechLength + speechPosition
                         then speechLength + speechPosition else Length(instrumental)
    ensures (Length(r) > Length(instrumental)) <==> Length(instrumental) < speechLength + speechPosition
    ensures instrumental.samples <= r.samples
    ensures forall i :: Length(instrumental) <= i < Length(r) ==> r.samples[i] == 0.0
    ensures r.gainDb == instrumental.gainDb
  {
    if Length(instrumental) < speechLength + speechPosition then
      var padding := Silence(speechLength + speechPosition - Length(instrumental));
      Track(instrumental.samples + padding, instrumental.gainDb)
    else
      instrumental
  }

  /** The two tracks as combine_audio_tracks hands them to the overlay. */
  datatype Prepared = Prepared(speech: Track, instrumental: Track)

  /**
   * combine_audio_tracks before the overlay: volume adjustments, then padding. Afterwards the
   * whole speech, placed at a non-negative position, lies inside the instrumental, and the
   * instrumental's original samples are untouched.
   */
  function PrepareTracks(speech: Track, instrumental: Track, speechAdjDb: int, instrumentalAdjDb: int,
                         speechPosition: int): (p: Prepared)
    ensures p.speech.samples == speech.samples
    ensures speechPosition + Length(p.speech) <= Length(p.instrumental)
    ensures instrumental.samples <= p.instrumental.samples
    ensures Length(p.instrumental) >= Length(instrumental)
  {
    var s := AdjustSpeech(speech, speechAdjDb);
    var i := AdjustInstrumental(instrumental, instrumentalAdjDb);
    Prepared(s, PadInstrumental(i, Length(s), speechPosition))
  }

  /** With both adjustments zero, preparing touches nothing but the instrumental's length. */
  lemma NeutralAdjustmentsOnlyPad(speech: Track, instrumental: Track, speechPosition: int)
    ensures PrepareTracks(speech, instrumental, 0, 0, speechPosition).speech == speech
    ensures PrepareTracks(speech, instrumental, 0, 0, speechPosition).instrumental.gainDb == instrumental.gainDb
  {
  }

  /** An instrumental already long enough comes through unpadded. */
  lemma LongInstrumentalUnpadded(instrumental: Track, speechLength: nat, speechPosition: int)
    requires speechLength + speechPosition <= Length(instrumental)
    ensures PadInstrumental(instrumental, speechLength, speechPosition) == instrumental
  {
  }
}
