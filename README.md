# Verified model of the canonical-voiceover scripts

This project models the parts of the voice-over pipeline that are plain computation, and proves properties of them in Dafny 4.11:

- **Waveform video** (`song_to_waveform.py`, module `Waveform`). It models the video length and the optional ten-second preview. It also models the window of samples shown around the current sample. Windows longer than 1000 samples are thinned to 1000 display points. The remaining points become connected line segments. Last, the rendered ARGB canvas is turned into an RGB frame.
- **URL handling** (`download_song.py`, module `DownloadSong`). This covers the YouTube URL check and the video-id extraction.
- **Speech text** (`generate_spoken_lyrics.py`, module `SpokenLyrics`). This covers the lyric list, the `+=` loop that builds the text sent to the text-to-speech service, and the request URL.
- **Instrumental lookup** (`remove_vocals.py`, module `RemoveVocals`). This covers where the separated instrumental is looked for, and the order in which models are tried. The set of existing files is an input.
- **Track preparation** (`combine_spoken_lyrics_with_instrumental.py`, module `CombineTracks`). This covers the volume adjustments and the silence padding that make the speech fit inside the instrumental.

Durations and timestamps are seconds as `real`. Python's `int()` on a float is `Waveform.Trunc`, which truncates toward zero. Audio samples are `real` amplitudes. pydub tracks are modelled as one sample per millisecond plus the gain in dB applied so far. `Wrappers.Option` stands for Python's `None` results.

A few details of the renderer that the model keeps as the code has them:

- The attached audio track is cut only in ten-second mode. With a shorter requested duration, the whole audio is still attached (`Waveform.RequestedDurationKeepsWholeAudio`).
- The window around the current sample is found with `int()` truncation and `samples_per_segment // 2`, so it is not rounded.
- A window is empty past the end of the signal, and also when `half` is 0 or the signal is empty (`Waveform.Window`).
- An empty window gives the line collection zero segments, so nothing is drawn (`Waveform.FrameLines`).
- The number of display points is fixed at 1000.

## Model

| member | source | states |
|---|---|---|
| `Waveform.Trunc` | song_to_waveform.py:57 | Python `int()` on a float: the result is the float truncated toward zero, within one of it and of the same sign |
| `Waveform.SamplesIn` | song_to_waveform.py:54 | `int(seconds * sr)` for non-negative seconds is the floor: r <= seconds*sr < r+1 |
| `Waveform.PlanVideo` | song_to_waveform.py:38-48 | video duration never exceeds the audio duration; equals it with no request; a request is clamped (result <= request, and equal to request or audio); ten-second mode gives at most 10 s and keeps exactly the first min(len(y), 10*sr) samples as a prefix; otherwise samples untouched |
| `Waveform.PlanSamplesMatchVideo` | song_to_waveform.py:39-46 | in ten-second mode and with no request, the kept samples last exactly the video duration (the sample cut and the min agree) |
| `Waveform.AudioTrackDuration` | song_to_waveform.py:133-135 | the attached audio is cut to 10 s only in ten-second mode when the audio is longer; it is min(10, audio) there and the full audio otherwise |
| `Waveform.AudioTrackMatchesVideo` | song_to_waveform.py:130-136 | in ten-second mode and with no request, audio track duration equals video duration |
| `Waveform.RequestedDurationKeepsWholeAudio` | song_to_waveform.py:45-48 | a request shorter than the audio gives exactly that video duration, while the attached audio stays longer than the video |
| `Waveform.TotalFrames` | song_to_waveform.py:51-57 | `total_frames = int(video_duration * fps)`: for a non-negative duration the floor of duration*fps; only for fps > 0, since fps = 0 fails at line 51 first |
| `Waveform.FrameTimesWithinVideo` | song_to_waveform.py:57 | every frame index i below total_frames has timestamp i/fps in [0, video_duration) |
| `Waveform.TotalFramesWholeSeconds` | song_to_waveform.py:57 | a whole number of seconds k gives exactly k*fps frames |
| `Waveform.Window` | song_to_waveform.py:99-105 | window of at most 2*half samples, with half = samples_per_segment // 2; exactly 2*half when half <= cur and cur+half <= len(y); clamped, never padded: entry k is y[max(0,cur-half)+k]; empty (no error) exactly when len(y) = 0, half = 0 or cur >= len(y)+half |
| `Waveform.PickIndex` | song_to_waveform.py:110 | the index picked for display point i always lies inside the window |
| `Waveform.PickIndexEnds` | song_to_waveform.py:110 | the first pick is index 0 and the last pick is n-1 |
| `Waveform.PickIndexStrictlyIncreasing` | song_to_waveform.py:110 | for windows longer than 1000, picks are strictly increasing and below n, so no sample is repeated or invented |
| `Waveform.Downsample` | song_to_waveform.py:107-111 | a window longer than 1000 becomes exactly 1000 entries, entry k being the original sample at PickIndex(k) (floor-index selection: a sample is picked, never averaged); a window of at most 1000 is unchanged |
| `Waveform.DownsampleKeepsEnds` | song_to_waveform.py:108-111 | thinning keeps the window's first and last samples |
| `Waveform.LineSegments` | song_to_waveform.py:113-118 | max(0, len(segment)-1) lines; line i joins point i (x_i, segment[i]) to point i+1; consecutive lines share their endpoint |
| `Waveform.LineSegmentsSpanUnitInterval` | song_to_waveform.py:114 | for two or more points, x runs from 0 to 1 in equal steps of 1/(len-1) |
| `Waveform.XCoordLast` | song_to_waveform.py:114 | the last of n >= 2 evenly spaced x values is 1 |
| `Waveform.XCoordStep` | song_to_waveform.py:114 | consecutive x values lie 1/(n-1) apart |
| `Waveform.FrameLines` | song_to_waveform.py:94-118 | a frame has fewer than 1000 lines, and none when its window is empty |
| `Waveform.FrameVerticesAreSamples` | song_to_waveform.py:100-118 | both ends of every line of a frame have an amplitude that is one of the signal's own samples |
| `Waveform.DisplayedIsSample` | song_to_waveform.py:100-111 | every point left after windowing and thinning is one of the signal's samples |
| `Waveform.MakeFrame` | song_to_waveform.py:94-118 | the frame at time t (window int(segment_length*sr) wide around sample int(t*sr)) has fewer than 1000 lines, and every vertex amplitude is a signal sample |
| `Waveform.MakeFrameEmptyPastEnd` | song_to_waveform.py:97-102 | once t*sr reaches len(y) + half, the frame draws no line |
| `Waveform.RollLeft` | song_to_waveform.py:73 | `np.roll(-1)` on a pixel: channel c becomes old channel (c+1) mod 4 |
| `Waveform.ArgbToRgb` | song_to_waveform.py:69-73 | the RGB buffer has 3 bytes for every 4-byte ARGB pixel |
| `Waveform.ArgbToRgbChannels` | song_to_waveform.py:73 | RGB byte c of pixel i is ARGB byte c+1 of pixel i: R, G, B kept in order, alpha dropped |
| `DownloadSong.StartsWithAny` | download_song.py:18 | `str.startswith(tuple)` is true exactly when some prefix in the tuple is a prefix of the string |
| `DownloadSong.ValidateUrl` | download_song.py:16-21 | accepted exactly when the URL starts with one of the four http/https, www.youtube.com/youtu.be prefixes |
| `DownloadSong.BareYouTubeDomainRejected` | download_song.py:18 | `https://youtube.com/...` and `http://youtube.com/...` (no `www.`) are rejected |
| `DownloadSong.WatchUrlAccepted` | download_song.py:18 | a `https://www.youtube.com/watch?v=` URL is accepted |
| `DownloadSong.Contains` | download_song.py:25 | Python `sub in s`: true exactly when sub occurs at some position of s |
| `DownloadSong.FirstKeyIndex` | download_song.py:27 | the position of the first non-blank pair for the key, with every earlier pair for another key or blank |
| `DownloadSong.FirstValue` | download_song.py:26-27 | `parse_qs(query).get("v", [None])[0]`: None exactly when no pair gives the key a non-blank value; otherwise the first such value |
| `DownloadSong.LStrip` | download_song.py:29 | `lstrip("/")`: a suffix of the path, not starting with '/', with only '/' removed before it |
| `DownloadSong.GetVideoId` | download_song.py:23-30 | a URL containing "youtube.com" (checked first, so also one containing both) yields the first `v` value; else one containing "youtu.be" yields the path without leading slashes; else None |
| `DownloadSong.ValidUrlHasIdBranch` | download_song.py:16-30 | every URL accepted by validate_url contains "youtube.com" or "youtu.be", so get_video_id never takes its final None branch for it |
| `SpokenLyrics.LyricsEntryCount` | generate_spoken_lyrics.py:69-116 | the list has 45 entries; entry 3 is lines 73 and 74 joined, for want of a comma |
| `SpokenLyrics.CreateSpokenLyrics` | generate_spoken_lyrics.py:119-125 | the accumulating loop returns each lyric in order followed by `. <break time='2s'/>` and a newline |
| `SpokenLyrics.FormattedAppend` | generate_spoken_lyrics.py:121-123 | the text of a concatenated list is the concatenation of the texts |
| `SpokenLyrics.FormattedLength` | generate_spoken_lyrics.py:121-123 | length = sum of lyric lengths + entries * suffix length; an empty list gives the empty string |
| `SpokenLyrics.BreakTagPerEntry` | generate_spoken_lyrics.py:123 | when no lyric contains '<', the text opens exactly one tag per list entry |
| `SpokenLyrics.BreakSuffixHasOneTag` | generate_spoken_lyrics.py:123 | the appended suffix opens exactly one tag |
| `SpokenLyrics.SpeechEndpoint` | generate_spoken_lyrics.py:47 | the request URL is `https://api.elevenlabs.io/v1` + `/text-to-speech/` + the voice id |
| `SpokenLyrics.SpeechEndpointRoundTrip` | generate_spoken_lyrics.py:26-47 | the voice id is read back unchanged from the request URL |
| `RemoveVocals.BasenameIsLastComponent` | remove_vocals.py:66 | `os.path.basename`: the suffix after the last '/', containing no '/' |
| `RemoveVocals.LastDotIsLast` | remove_vocals.py:66 | the last '.' position, with no '.' after it, or none at all |
| `RemoveVocals.StripExtensionCutsAtLastDot` | remove_vocals.py:66 | `splitext(...)[0]` is a prefix cut exactly at the last '.' when something other than dots precedes it; otherwise the whole name |
| `RemoveVocals.ModelDir` | remove_vocals.py:67 | the directory is "htdemucs" exactly for model "htdemucs", and "mdx_extra" for every other model |
| `RemoveVocals.JoinRelative` | remove_vocals.py:70 | `os.path.join` of a non-empty path and a relative part ends with '/' and that part |
| `RemoveVocals.StemPathEndsWithStem` | remove_vocals.py:70-76 | every probed path ends with '/' followed by the stem file name |
| `RemoveVocals.InstrumentalPath` | remove_vocals.py:64-80 | returns only existing paths; no_vocals.wav is preferred over other.wav; None exactly when neither exists |
| `RemoveVocals.QuantizedModelSharesDir` | remove_vocals.py:67 | asking for "mdx_extra_q" probes the same paths as "mdx_extra" |
| `RemoveVocals.FirstFoundMeaning` | remove_vocals.py:136-140 | trying models in order yields an existing path found by one of them, with every earlier model finding nothing (the first hit), and None exactly when none finds one |
| `RemoveVocals.FindInstrumental` | remove_vocals.py:133-144 | main's loop tries mdx_extra, then htdemucs, then mdx_extra_q, and stops at the first hit; None is the abort before conversion |
| `RemoveVocals.LastFallbackRedundant` | remove_vocals.py:137 | the search equals trying mdx_extra then htdemucs: the mdx_extra_q fallback never finds anything |
| `RemoveVocals.FallbacksAfterMiss` | remove_vocals.py:137-140 | after mdx_extra found nothing, the fallbacks amount to htdemucs alone |
| `CombineTracks.Silence` | combine_spoken_lyrics_with_instrumental.py:38 | `AudioSegment.silent(ms)` is ms milliseconds of zero samples |
| `CombineTracks.AdjustSpeech` | combine_spoken_lyrics_with_instrumental.py:29-30 | the speech gain rises by the adjustment, samples untouched; zero leaves the track unchanged |
| `CombineTracks.AdjustInstrumental` | combine_spoken_lyrics_with_instrumental.py:32-33 | the instrumental gain falls by the adjustment (subtracted, unlike speech); zero leaves the track unchanged |
| `CombineTracks.PadInstrumental` | combine_spoken_lyrics_with_instrumental.py:35-39 | padded exactly when len(instrumental) < len(speech) + position; result length max(len(instrumental), len(speech) + position); original kept as prefix, only silence after; gain unchanged |
| `CombineTracks.PrepareTracks` | combine_spoken_lyrics_with_instrumental.py:28-39 | after adjusting and padding, the speech placed at its position ends inside the instrumental, and the instrumental's original samples are kept as its prefix |
| `CombineTracks.NeutralAdjustmentsOnlyPad` | combine_spoken_lyrics_with_instrumental.py:29-33 | zero adjustments leave the speech unchanged and the instrumental's gain as it was |
| `CombineTracks.LongInstrumentalUnpadded` | combine_spoken_lyrics_with_instrumental.py:36 | an instrumental already long enough comes through unchanged |

## Left out

- Audio decoding and encoding are external codec libraries, so they are not modelled: `librosa.load`, moviepy's `VideoClip`, `AudioFileClip` and `write_videofile`, and pydub's load and export. `librosa.get_duration` is modelled as len(y)/sr for a mono signal.
- The frame timestamps come from moviepy and are not modelled. `Waveform.FrameTimesWithinVideo` states the property for the timestamps i/fps.
- matplotlib figure setup and drawing are rendering state in an external library: `plt.subplots`, axis limits, `LineCollection.set_segments`, `set_color` and `canvas.draw`. Only the arithmetic that feeds them is modelled.
- `samples_per_frame` (song_to_waveform.py:51) and `total_frames` (song_to_waveform.py:57) are computed but never read. The frames actually written are the ones moviepy's `write_videofile` (song_to_waveform.py:140) asks for. `Waveform.TotalFrames` models the unused value only. It requires fps > 0: with fps = 0, `int(sr / fps)` at song_to_waveform.py:51 raises ZeroDivisionError, so no frame count is ever computed.
- Waveform.AudioTrackMatchesVideo: the duration of the attached `AudioFileClip` (song_to_waveform.py:133) comes from moviepy/ffmpeg, and the model identifies it with librosa's `len(y) / sr` (song_to_waveform.py:36). The two can differ slightly, for example through MP3 encoder delay and padding.
- Waveform.MakeFrame: requires a non-negative `segment_length`. A negative one would make `samples_per_segment` negative in the code.
- Waveform.PickIndex: uses the exact floor of i*(n-1)/999. numpy computes `linspace` in floating point, so its index can differ by one at rounding edges.
- Waveform.LineSegmentsSpanUnitInterval: the x values of `np.linspace(0, 1, n)` (song_to_waveform.py:114) are modelled by `XCoord` as the exact reals i/(n-1). The equal steps hold for those; numpy's float values can differ from them in the last bit.
- Waveform.Window: takes the current sample and `samples_per_segment` as natural numbers. A negative timestamp or segment length would make Python's slice count from the end; moviepy never passes a negative time.
- Waveform.PlanVideo: durations are exact reals, so float rounding of `len(y)/sr` and of the `min` comparisons is not modelled.
- The overlay of the speech on the instrumental and the MP3 export are not modelled (combine_spoken_lyrics_with_instrumental.py:42-45). Neither is the decibel arithmetic of a gain change: a track carries its pending gain instead.
- urlparse and the parsing half of parse_qs are not part of this model: splitting the URL into path and query, splitting the query on '&' and '=', and turning '+' into a space and decoding percent escapes. `DownloadSong.GetVideoId` receives the URL's path and its decoded query pairs in order. The rest of parse_qs is modelled by `DownloadSong.FirstValue`: dropping blank values and taking the first `v`.
- The downloads are subprocess and network plumbing, so they are left out: pytube, yt-dlp and ffmpeg conversion, the `main` fallbacks of download_song.py, and `pip install`.
- SpokenLyrics.BreakTagPerEntry: is proved for any lyric list with no '<' in an entry, and is not applied to `SpokenLyrics.Lyrics` itself. That the 45 entries contain no '<' is seen by reading them, not proved.
- The text-to-speech request itself is network I/O and is left out: headers, JSON body, `requests.post`, the status-code check and the MP3-to-WAV conversion. Only the request URL is modelled. The API key and the dotenv loading are environment input.
- In remove_vocals.py, everything in `main` outside lines 133-144 is process and filesystem work and is left out: the input existence check, `check_demucs_installed`, `separate_audio`, `convert_to_mp3` and the temporary-directory cleanup. File existence is the input set `existing`.
- Printing and the module-level path constants are not modelled.
