/** The backend gateway (services/geminiService.ts): the system instruction
    built from the preferences, the scan of an image-generation response,
    the text-to-speech request with its audio decoding, and the two decoding
    helpers. The SDK calls are parameters: a `generateContent` function from
    the request text to what the call produced, and `atob` from base64 to a
    binary string (None when it throws). */
module GeminiService {
  import opened ChefTypes
  import opened JsString

  type byte = x: int | 0 <= x < 256

  // ---------------------------------------------------------------------
  // Responses of `generateContent`, with the optional chaining the code
  // applies to them.

  datatype Blob = Blob(mimeType: Option<string>, data: Option<string>)
  datatype Part = Part(text: Option<string>, inlineData: Option<Blob>)
  datatype Content = Content(parts: Option<seq<Part>>)
  datatype Candidate = Candidate(content: Option<Content>)

  /** What one `generateContent` call produced: it threw, or it returned a
      response whose `candidates` may be absent. */
  datatype CallResult = Threw | Response(candidates: Option<seq<Candidate>>)

  /** `response.candidates?.[0]?.content?.parts`, absent when any link is. */
  function FirstCandidateParts(resp: CallResult): (parts: Option<seq<Part>>)
    ensures resp.Threw? ==> parts == None
    ensures resp.Response? && resp.candidates.None? ==> parts == None
    ensures resp.Response? && resp.candidates == Some([]) ==> parts == None
    ensures resp.Response? && resp.candidates.Some? && |resp.candidates.value| > 0 ==>
              var first := resp.candidates.value[0];
              && (first.content.None? ==> parts == None)
              && (first.content.Some? ==> parts == first.content.value.parts)
  {
    if resp.Response? && resp.candidates.Some? && |resp.candidates.value| > 0
       && resp.candidates.value[0].content.Some?
    then resp.candidates.value[0].content.value.parts
    else None
  }

  // ---------------------------------------------------------------------
  // decode

  /** A string every code unit of which fits in a byte, as `atob` returns. */
  predicate IsBinaryString(s: string)
  {
    forall i :: 0 <= i < |s| ==> (s[i] as int) < 256
  }

  /** The bytes a `Uint8Array` holds after `bytes[i] = s.charCodeAt(i)`:
      each code is stored modulo 256. */
  function ByteString(s: string): (b: seq<byte>)
    ensures |b| == |s|
  {
    seq(|s|, i requires 0 <= i < |s| => (s[i] as int) % 256)
  }

  /** `decode` after `atob`: copies the code units of the binary string into
      a new byte array of the same length, one byte per unit. */
  method Decode(binary: string) returns (bytes: array<byte>)
    ensures bytes.Length == |binary|
    ensures bytes[..] == ByteString(binary)
    ensures IsBinaryString(binary) ==> forall i :: 0 <= i < |binary| ==> bytes[i] == binary[i] as int
  {
    var len := |binary|;
    bytes := new byte[len];
    for i := 0 to len
      invariant forall j :: 0 <= j < i ==> bytes[j] == (binary[j] as int) % 256
    {
      bytes[i] := (binary[i] as int) % 256;
    }
  }

  // ---------------------------------------------------------------------
  // decodeAudioData

  /** Sample `k` of an `Int16Array` view of `bytes`: two bytes, little-endian,
      two's complement. */
  function Int16At(bytes: seq<byte>, k: nat): (v: int)
    requires 2 * k + 1 < |bytes|
    ensures -32768 <= v < 32768
  {
    var u: int := bytes[2 * k] as int + 256 * (bytes[2 * k + 1] as int);
    if u >= 32768 then u - 65536 else u
  }

  /** `sample / 32768.0`: lands in [-1, 1), and is exact, since multiplying
      back gives the sample. */
  function Normalize(sample: int): (x: real)
    requires -32768 <= sample < 32768
    ensures -1.0 <= x < 1.0
    ensures x * 32768.0 == sample as real
  {
    sample as real / 32768.0
  }

  /** `dataInt16.length / numChannels` truncated, which is the length
      `createBuffer` gives the buffer. */
  function FrameCount(byteLength: nat, numChannels: nat): (frames: nat)
    ensures numChannels == 0 ==> frames == 0
    ensures numChannels > 0 ==>
              frames * numChannels <= byteLength / 2 < (frames + 1) * numChannels
  {
    if numChannels == 0 then 0 else (byteLength / 2) / numChannels
  }

  /** What the Web Audio API's `createBuffer` accepts: 1 to 32 channels,
      at least one frame, a sample rate from 3000 to 768000 Hz. */
  predicate CreateBufferAccepts(numChannels: nat, frames: nat, sampleRate: int)
  {
    1 <= numChannels <= 32 && frames >= 1 && 3000 <= sampleRate <= 768000
  }

  datatype AudioBuffer = AudioBuffer(sampleRate: int, channels: array2<real>)

  datatype AudioError =
    | OddByteLength   // `new Int16Array(buffer)` throws a RangeError
    | BufferRejected  // `createBuffer` throws a NotSupportedError

  datatype DecodeResult = Decoded(buffer: AudioBuffer) | DecodeFailed(error: AudioError)

  /** Frame `i` of a channel `c < n` lies inside the interleaved samples. */
  lemma FrameInBounds(i: nat, c: nat, n: nat, samples: nat)
    requires c < n && i < samples / n
    ensures i * n + c < samples
  {
    var f := samples / n;
    assert samples == f * n + samples % n;
    assert i + 1 <= f;
    assert (i + 1) * n <= f * n by {
      MulLeq(i + 1, f, n);
    }
  }

  lemma MulLeq(a: nat, b: nat, n: nat)
    requires a <= b
    ensures a * n <= b * n
  {
  }

  /** What channel `c`, frame `i` of the decoded buffer holds: interleaved
      sample `i * n + c` of `data` (always inside it), normalised. */
  function ChannelSample(data: seq<byte>, n: nat, c: nat, i: nat): real
    requires c < n && i < (|data| / 2) / n
  {
    FrameInBounds(i, c, n, |data| / 2);
    Normalize(Int16At(data, i * n + c))
  }

  /** `decodeAudioData`: views the bytes as 16-bit samples (an odd byte count
      throws), and de-interleaves them into `numChannels` channels of
      `FrameCount` frames, channel `c` frame `i` taking sample
      `i * numChannels + c` divided by 32768. */
  method DecodeAudioData(data: array<byte>, sampleRate: int, numChannels: nat)
    returns (r: DecodeResult)
    ensures data.Length % 2 == 1 <==> r == DecodeFailed(OddByteLength)
    ensures r == DecodeFailed(BufferRejected) <==>
      data.Length % 2 == 0 && !CreateBufferAccepts(numChannels, FrameCount(data.Length, numChannels), sampleRate)
    ensures r.Decoded? ==>
      && r.buffer.sampleRate == sampleRate
      && r.buffer.channels.Length0 == numChannels
      && r.buffer.channels.Length1 == FrameCount(data.Length, numChannels)
      && forall c, i :: 0 <= c < numChannels && 0 <= i < r.buffer.channels.Length1 ==>
           r.buffer.channels[c, i] == ChannelSample(data[..], numChannels, c, i)
  {
    if data.Length % 2 != 0 {
      return DecodeFailed(OddByteLength);
    }
    var frameCount := FrameCount(data.Length, numChannels);
    if !CreateBufferAccepts(numChannels, frameCount, sampleRate) {
      return DecodeFailed(BufferRejected);
    }
    var buffer := new real[numChannels, frameCount];
    for channel := 0 to numChannels
      invariant forall c, i :: 0 <= c < channel && 0 <= i < frameCount ==>
        buffer[c, i] == ChannelSample(data[..], numChannels, c, i)
    {
      for i := 0 to frameCount
        invariant forall c, j :: 0 <= c < channel && 0 <= j < frameCount ==>
          buffer[c, j] == ChannelSample(data[..], numChannels, c, j)
        invariant forall j :: 0 <= j < i ==>
          buffer[channel, j] == ChannelSample(data[..], numChannels, channel, j)
      {
        buffer[channel, i] := ChannelSample(data[..], numChannels, channel, i);
      }
    }
    return Decoded(AudioBuffer(sampleRate, buffer));
  }

  /** When the sample count divides evenly, the index map of
      `DecodeAudioData` reaches every sample: sample `k` is frame `k / n` of
      channel `k % n`. */
  lemma EverySampleRead(samples: nat, n: nat, k: nat)
    requires n >= 1 && samples % n == 0 && k < samples
    ensures k % n < n && k / n < samples / n && (k / n) * n + k % n == k
  {
    var f := samples / n;
    assert samples == f * n;
  }

  /** No sample is read twice: distinct (channel, frame) pairs read
      distinct samples. */
  lemma {:induction false} NoSampleReadTwice(n: nat, c1: nat, i1: nat, c2: nat, i2: nat)
    requires c1 < n && c2 < n
    requires i1 * n + c1 == i2 * n + c2
    ensures c1 == c2 && i1 == i2
  {
    if i1 < i2 {
      MulLeq(i1 + 1, i2, n);
    } else if i2 < i1 {
      MulLeq(i2 + 1, i1, n);
    }
  }

  // ---------------------------------------------------------------------
  // createChatSession: the system instruction

  /** `prefs.allergies || "None"`. */
  function AllergiesShown(allergies: string): (shown: string)
    ensures shown == "None" <==> allergies == "" || allergies == "None"
    ensures allergies != "" ==> shown == allergies
  {
    if allergies == "" then "None" else allergies
  }

  /** The lines of the `prefString` template literal, in order: an empty
      line after the opening backtick, a heading, one line per preference,
      and the indentation before the closing backtick. */
  const PreferencesHeading: string := "    Current User Preferences:"
  const DietLabel: string := "    - Diet: "
  const CuisineLabel: string := "    - Cuisine Preference: "
  const SkillLabel: string := "    - Skill Level: "
  const AllergiesLabel: string := "    - Allergies: "
  const LanguageLabel: string := "    - Preferred Language: "

  function PreferenceLines(p: UserPreferences): seq<string>
  {
    [ "",
      PreferencesHeading,
      DietLabel + p.diet,
      CuisineLabel + p.cuisine,
      SkillLabel + p.skillLevel,
      AllergiesLabel + AllergiesShown(p.allergies),
      LanguageLabel + p.language,
      "  " ]
  }

  /** `prefString`: the template literal, its lines joined by line breaks.
      It opens with a line break, the heading and the diet line. */
  function PreferenceBlock(p: UserPreferences): (r: string)
    ensures StartsWith(r, "\n" + PreferencesHeading + "\n" + DietLabel + p.diet + "\n")
  {
    PreferenceBlockOpening(p);
    Join(PreferenceLines(p), '\n')
  }

  lemma PreferenceBlockOpening(p: UserPreferences)
    ensures StartsWith(Join(PreferenceLines(p), '\n'), "\n" + PreferencesHeading + "\n" + DietLabel + p.diet + "\n")
  {
    var ls := PreferenceLines(p);
    JoinOpening(ls, '\n');
    var head := "\n" + PreferencesHeading + "\n" + DietLabel + p.diet + "\n";
    assert head == ls[0] + "\n" + ls[1] + "\n" + ls[2] + "\n";
    var rest := Join(ls[3..], '\n');
    assert (head + rest)[..|head|] == head;
  }

  /** `SYSTEM_INSTRUCTION_BASE + prefString`: the base text is kept whole at
      the front and the preference block follows it. */
  function SystemInstruction(base: string, p: UserPreferences): (r: string)
    ensures StartsWith(r, base)
    ensures r[|base|..] == PreferenceBlock(p)
  {
    base + PreferenceBlock(p)
  }

  /** When no field holds a line break, each preference sits on a line of its
      own, verbatim (allergies rendered through `AllergiesShown`). */
  lemma PreferencesOnOwnLines(p: UserPreferences)
    requires '\n' !in p.diet && '\n' !in p.cuisine && '\n' !in p.skillLevel
    requires '\n' !in p.allergies && '\n' !in p.language
    ensures Split(PreferenceBlock(p), '\n') == PreferenceLines(p)
  {
    LinesWithoutBreaks(p);
    SplitJoin(PreferenceLines(p), '\n');
  }

  /** With newline-free fields, no template line holds a line break. */
  lemma LinesWithoutBreaks(p: UserPreferences)
    requires '\n' !in p.diet && '\n' !in p.cuisine && '\n' !in p.skillLevel
    requires '\n' !in p.allergies && '\n' !in p.language
    ensures forall k :: 0 <= k < |PreferenceLines(p)| ==> '\n' !in PreferenceLines(p)[k]
  {
    var ls := PreferenceLines(p);
    assert '\n' !in PreferencesHeading && '\n' !in DietLabel;
    assert '\n' !in CuisineLabel && '\n' !in SkillLabel;
    assert '\n' !in AllergiesLabel && '\n' !in LanguageLabel;
    forall k | 0 <= k < |ls| ensures '\n' !in ls[k] {
    }
  }

  /** A chat session as `createChatSession` returns it: a new object bound to
      the preferences it was created with; it runs with
      `SystemInstruction(base, prefs)`. */
  class ChatSession {
    const prefs: UserPreferences

    constructor (prefs: UserPreferences)
      ensures this.prefs == prefs
    {
      this.prefs := prefs;
    }
  }

  // ---------------------------------------------------------------------
  // generateDishImage

  const ImagePromptPrefix: string := "A high quality, appetizing food photography shot of: "
  const ImagePromptSuffix: string := ". Professional lighting, 4k."

  /** The request text: the prompt embedded verbatim in a fixed template. */
  function ImagePrompt(prompt: string): (r: string)
    ensures StartsWith(r, ImagePromptPrefix)
    ensures |r| == |ImagePromptPrefix| + |prompt| + |ImagePromptSuffix|
    ensures r[|ImagePromptPrefix|..|ImagePromptPrefix| + |prompt|] == prompt
    ensures r[|ImagePromptPrefix| + |prompt|..] == ImagePromptSuffix
  {
    ImagePromptPrefix + prompt + ImagePromptSuffix
  }

  /** `candidates?.[0]?.content?.parts || []`. */
  function ResponseParts(resp: CallResult): (parts: seq<Part>)
    ensures FirstCandidateParts(resp).None? ==> parts == []
    ensures FirstCandidateParts(resp).Some? ==> parts == FirstCandidateParts(resp).value
    ensures resp.Threw? ==> parts == []
  {
    var ps := FirstCandidateParts(resp);
    if ps.Some? then ps.value else []
  }

  /** The index of the first part carrying `inlineData`, or `|parts|`. */
  function FirstInline(parts: seq<Part>): (k: nat)
    ensures k <= |parts|
    ensures forall j :: 0 <= j < k ==> parts[j].inlineData.None?
    ensures k < |parts| ==> parts[k].inlineData.Some?
  {
    if parts == [] then 0
    else if parts[0].inlineData.Some? then 0
    else 1 + FirstInline(parts[1..])
  }

  /** What `generateDishImage` returns for a response: nothing when the call
      threw or no part carries `inlineData`; otherwise exactly the `data` of
      the first part carrying `inlineData`. */
  function DishImage(resp: CallResult): (image: Option<string>)
    ensures resp.Threw? ==> image == None
    ensures (forall j :: 0 <= j < |ResponseParts(resp)| ==> ResponseParts(resp)[j].inlineData.None?)
            ==> image == None
    ensures image.Some? ==>
              exists k :: 0 <= k < |ResponseParts(resp)|
                && ResponseParts(resp)[k].inlineData.Some?
                && ResponseParts(resp)[k].inlineData.value.data == image
                && forall j :: 0 <= j < k ==> ResponseParts(resp)[j].inlineData.None?
    ensures resp.Response? && FirstInline(ResponseParts(resp)) < |ResponseParts(resp)| ==>
              image == ResponseParts(resp)[FirstInline(ResponseParts(resp))].inlineData.value.data
  {
    var ps := ResponseParts(resp);
    var k := FirstInline(ps);
    if resp.Response? && k < |ps| then ps[k].inlineData.value.data else None
  }

  /** `generateDishImage`: sends the templated prompt and scans the parts in
      order, returning at the first one that carries `inlineData`. */
  method GenerateDishImage(prompt: string, generateContent: string -> CallResult)
    returns (image: Option<string>)
    ensures image == DishImage(generateContent(ImagePrompt(prompt)))
  {
    var response := generateContent(ImagePrompt(prompt));
    if response.Threw? {
      return None;
    }
    var parts := ResponseParts(response);
    for i := 0 to |parts|
      invariant forall j :: 0 <= j < i ==> parts[j].inlineData.None?
    {
      if parts[i].inlineData.Some? {
        return parts[i].inlineData.value.data;
      }
    }
    return None;
  }

  // ---------------------------------------------------------------------
  // generateSpeech

  const SpeechLimit: nat := 500
  const SpeechSampleRate: int := 24000

  /** The text sent for speech: unchanged up to 500 units, otherwise its
      first 500 units followed by "...". */
  function SafeText(text: string): (r: string)
    ensures |r| <= SpeechLimit + 3
    ensures |text| <= SpeechLimit ==> r == text
    ensures |text| > SpeechLimit ==> |r| == SpeechLimit + 3 && r[..SpeechLimit] == text[..SpeechLimit]
    ensures |text| > SpeechLimit ==> r[SpeechLimit..] == "..."
  {
    if |text| > SpeechLimit then text[..SpeechLimit] + "..." else text
  }

  /** Truncating an already truncated text changes nothing. */
  lemma SafeTextIdempotent(text: string)
    ensures SafeText(SafeText(text)) == SafeText(text)
  {
    if |text| > SpeechLimit {
      var r := SafeText(text);
      assert r[..SpeechLimit] + "..." == r;
    }
  }

  /** `candidates?.[0]?.content?.parts?.[0]?.inlineData?.data`: only the
      first part is looked at, and its data is the audio whenever it carries
      `inlineData`. */
  function FirstPartAudio(resp: CallResult): (audio: Option<string>)
    ensures audio.Some? ==>
      && resp.Response? && |ResponseParts(resp)| > 0
      && ResponseParts(resp)[0].inlineData.Some?
      && ResponseParts(resp)[0].inlineData.value.data == audio
    ensures resp.Response? && |ResponseParts(resp)| > 0 && ResponseParts(resp)[0].inlineData.Some? ==>
              audio == ResponseParts(resp)[0].inlineData.value.data
  {
    var ps := FirstCandidateParts(resp);
    if ps.Some? && |ps.value| > 0 && ps.value[0].inlineData.Some?
    then ps.value[0].inlineData.value.data
    else None
  }

  /** Only the first part matters: responses whose first parts agree yield
      the same audio, whatever follows; and audio found there is what the
      image scan of the same response would return. */
  lemma FirstPartAudioIgnoresRest(r1: CallResult, r2: CallResult)
    requires r1.Response? && r2.Response?
    requires |ResponseParts(r1)| > 0 && |ResponseParts(r2)| > 0
    requires FirstCandidateParts(r1).Some? && FirstCandidateParts(r2).Some?
    requires ResponseParts(r1)[0] == ResponseParts(r2)[0]
    ensures FirstPartAudio(r1) == FirstPartAudio(r2)
    ensures FirstPartAudio(r1).Some? ==> DishImage(r1) == FirstPartAudio(r1)
  {
    if FirstPartAudio(r1).Some? {
      assert FirstInline(ResponseParts(r1)) == 0;
    }
  }

  /** What `generateSpeech` ends with: nothing to play, a buffer played, or an
      error caught and logged. */
  datatype SpeechOutcome = NoAudio | Played(buffer: AudioBuffer) | SpeechFailed

  /** The outcome `generateSpeech` reaches for `text`: a failure exactly when
      the call threw, or audio came but `atob` threw or its bytes are odd in
      number or fewer than two; nothing to play exactly for a response whose
      first part has no audio; otherwise a 24000 Hz mono buffer holding the
      decoded samples. */
  predicate SpeechOutcomeFits(text: string, generateContent: string -> CallResult,
                              atob: string -> Option<string>, r: SpeechOutcome)
    reads if r.Played? then {r.buffer.channels} else {}
  {
    var resp := generateContent(SafeText(text));
    var audio := FirstPartAudio(resp);
    && (resp.Threw? ==> r == SpeechFailed)
    && (r == NoAudio <==> resp.Response? && (audio == None || audio == Some("")))
    && (r.Played? ==>
          && resp.Response? && audio.Some? && audio.value != ""
          && atob(audio.value).Some?
          && var bytes := ByteString(atob(audio.value).value);
          && r.buffer.sampleRate == SpeechSampleRate
          && r.buffer.channels.Length0 == 1
          && r.buffer.channels.Length1 == |bytes| / 2 >= 1
          && forall i :: 0 <= i < r.buffer.channels.Length1 ==>
               r.buffer.channels[0, i] == ChannelSample(bytes, 1, 0, i))
    && (r == SpeechFailed <==>
          || resp.Threw?
          || (audio.Some? && audio.value != "" &&
              (|| atob(audio.value).None?
               || |atob(audio.value).value| % 2 == 1
               || |atob(audio.value).value| < 2)))
  }

  /** `generateSpeech`: requests audio for the truncated text; without audio
      data in the first part it stops; otherwise it decodes the audio at
      24000 Hz, one channel, and plays it. Every error (the call, `atob`, an
      odd byte count, an empty buffer) is absorbed. */
  method GenerateSpeech(text: string, generateContent: string -> CallResult,
                        atob: string -> Option<string>)
    returns (r: SpeechOutcome)
    ensures SpeechOutcomeFits(text, generateContent, atob, r)
  {
    var response := generateContent(SafeText(text));
    if response.Threw? {
      return SpeechFailed;
    }
    var base64Audio := FirstPartAudio(response);
    if base64Audio == None || base64Audio == Some("") {
      return NoAudio;
    }
    var binary := atob(base64Audio.value);
    if binary.None? {
      return SpeechFailed;
    }
    var bytes := Decode(binary.value);
    assert FrameCount(bytes.Length, 1) == bytes.Length / 2;
    var decoded := DecodeAudioData(bytes, SpeechSampleRate, 1);
    if decoded.DecodeFailed? {
      assert decoded.error.OddByteLength? || decoded.error.BufferRejected?;
      assert decoded == DecodeFailed(decoded.error);
      return SpeechFailed;
    }
    return Played(decoded.buffer);
  }
}
