# Chef Mate, modelled in Dafny

Chef Mate is a single-page cooking assistant. A user chats with a Gemini
model about recipes. They can attach a photo of their ingredients, ask for
a generated picture of a dish, and have a recipe read aloud. Preferences
(diet, cuisine, skill level, allergies, language) are set in a sidebar and
folded into the chat session's system instruction.

This project models the application's logic, one module per source file:

- `ChefTypes` (`types.dfy`) holds the records of `types.ts`: a message, the
  preferences and their defaults, the loading state, and the preference
  keys.
- `JsString` (`js_string.dfy`) holds the JavaScript string operations the
  code relies on (`trim`, `split` on one character, `toLowerCase`,
  `includes`, `startsWith`), each with its defining properties. For example,
  `split` and `join` are proved to be inverses.
- `GeminiService` (`gemini_service.dfy`) covers `services/geminiService.ts`:
  - the base64-to-bytes copy, as a loop over an array;
  - the de-interleaving of 16-bit PCM into channels, as nested loops over a
    two-dimensional array;
  - the preference block of the system instruction;
  - the image-generation scan, as a loop proved against `DishImage`;
  - the text-to-speech request with its truncation and error absorption.
- `ChatMessage` (`chat_message.dfy`) covers the logic of
  `components/ChatMessage.tsx`: the recipe heuristic, the image-prompt
  extraction, the image `src`, and which action buttons show.
- `Sidebar` (`sidebar.dfy`) covers `components/Sidebar.tsx`: the
  preference merge, the cuisine box's `'Any'` mapping, and the closed
  option sets, which are proved to be kept by every control.
- `App` (`app.dfy`) covers `App.tsx` as a class `Controller`. The
  component's state variables are fields, and its handlers are methods that
  update them.

The backends are parameters, not code:

- the chat stream is a function from a session and a payload to a `Stream`
  (the chunk texts, and whether an error follows them);
- each `generateContent` call is a function from the request text to a
  `CallResult`;
- `atob` is a function from base64 to a binary string, or to nothing when
  it throws.

Message ids come from `Date.now()` in the source. Here the caller supplies
them, fresh and distinct.

A send ends with a reply whose text is the accumulated stream text. When
the stream fails, the reply text is the apology, replacing any text that
had already arrived. A stream that completes without any text leaves the
placeholder loading with empty text; the contract of `App.Reply` states this.

## Model

| member | source | states |
|---|---|---|
| JsString.Trim | App.tsx:55 | `trim` leaves no whitespace at either end, keeps only characters of the input, and is empty exactly when the input is whitespace only |
| JsString.TrimIsSlice | components/ChatMessage.tsx:32-33 | `trim` removes a whitespace-only prefix and a whitespace-only suffix and nothing else: the result is a contiguous slice of the input |
| JsString.StartsWith | components/ChatMessage.tsx:32 | `startsWith(p)` holds exactly when the first characters of the string are those of `p` |
| JsString.Contains | components/ChatMessage.tsx:25-26 | `includes(w)` holds exactly when `w` occurs at some position of the string |
| JsString.Split | components/ChatMessage.tsx:31 | `split` on one character gives at least one piece, no piece holds the separator, and joining the pieces gives the input back |
| JsString.JoinSecondPiece | App.tsx:73 | in a join of two or more pieces the second piece sits right after the first separator, up to the next separator or the end |
| JsString.SplitCountsSeparators | App.tsx:73 | `split` gives more than one piece exactly when the separator occurs |
| JsString.SplitJoin | components/ChatMessage.tsx:31 | the other round trip: splitting the join of separator-free pieces gives the pieces back |
| JsString.ToLower | components/ChatMessage.tsx:25-26 | `toLowerCase` keeps the length and lower-cases each character in place |
| ChatMessage.HasRecipe | components/ChatMessage.tsx:24-27 | a message has a recipe exactly when it is not from the user and its lower-cased text includes both "ingredients" and "instructions" (the predicate itself, over `Contains` and `ToLower`, which are characterised on their own); its ensures adds that such a message is a model message at least as long as "instructions" |
| ChatMessage.ContainsToLower | components/ChatMessage.tsx:25-26 | a word found in a text is still found after both are lower-cased |
| ChatMessage.RecipeInAnyCase | components/ChatMessage.tsx:24-27 | a model message mentioning "ingredients" and "instructions" in any capitalisation counts as a recipe |
| ChatMessage.QualifiesAsWritten | components/ChatMessage.tsx:32 | the line test used is exactly "non-empty once trimmed and not starting with '#' as written" |
| ChatMessage.FirstQualifying | components/ChatMessage.tsx:32 | `find` returns the first qualifying line: no line before it qualifies, and it does |
| ChatMessage.StripMarkup | components/ChatMessage.tsx:33 | removing `*` and `#` leaves neither, keeps the set of other characters, and never lengthens the text |
| ChatMessage.StripMarkupChar | components/ChatMessage.tsx:33 | a single `*` or `#` is removed and any other single character is kept |
| ChatMessage.StripMarkupAppend | components/ChatMessage.tsx:33 | stripping distributes over concatenation, so the kept characters stay in order and keep their number |
| ChatMessage.StripMarkupKeepsPlainText | components/ChatMessage.tsx:33 | text without markup passes through unchanged |
| ChatMessage.GetPrompt | components/ChatMessage.tsx:30-34 | the prompt holds no markup and has no surrounding whitespace |
| ChatMessage.GetPromptPicksFirst | components/ChatMessage.tsx:30-34 | the prompt is the first qualifying line, stripped and trimmed |
| ChatMessage.GetPromptFallback | components/ChatMessage.tsx:32-33 | without a qualifying line the prompt is "Delicious food" |
| ChatMessage.FallbackIsPlain | components/ChatMessage.tsx:32-33 | stripping and trimming the fallback leaves it as it is |
| ChatMessage.GetPromptMayBeEmpty | components/ChatMessage.tsx:32-33 | a line made only of markup qualifies and gives an empty prompt |
| ChatMessage.ImageSrc | components/ChatMessage.tsx:57 | the source is always a data URI: a data URI is kept, and bare base64 follows the JPEG prefix verbatim |
| ChatMessage.ImageSrcIdempotent | components/ChatMessage.tsx:57 | mapping a source twice changes nothing |
| ChatMessage.ActionButtons | components/ChatMessage.tsx:78-91 | buttons show exactly for a finished model message with a recipe; "Visualize Dish" passes the prompt and "Read Recipe" the text, each disabled by its own flag |
| ChatMessage.NoButtonsWhileLoadingOrUser | components/ChatMessage.tsx:78 | a loading message and every user message have no buttons |
| Sidebar.HandleChange | components/Sidebar.tsx:13-15 | the edited field gets the value and every other field is unchanged |
| Sidebar.FieldsDetermineRecord | types.ts:10-16 | two preference records with equal fields are equal |
| Sidebar.HandleChangeOverrides | components/Sidebar.tsx:13-15 | a second edit of the same key overrides the first |
| Sidebar.HandleChangeCommutes | components/Sidebar.tsx:13-15 | edits of different keys commute |
| Sidebar.CuisineShown | components/Sidebar.tsx:79 | the box never shows "Any"; it is empty exactly for a stored "Any" or empty cuisine, and shows any other stored cuisine verbatim |
| Sidebar.CuisineStored | components/Sidebar.tsx:81 | an edit never stores an empty cuisine; it stores "Any" exactly for empty input or the literal "Any", and non-empty input verbatim |
| Sidebar.CuisineRoundTrip | components/Sidebar.tsx:79-81 | feeding the shown text back restores every non-empty stored cuisine |
| Sidebar.CuisineShownAfterEdit | components/Sidebar.tsx:79-81 | typed text is shown again unless it is the literal "Any" |
| Sidebar.DefaultsValid | types.ts:18-24 | the default preferences lie in the option sets |
| Sidebar.Apply | components/Sidebar.tsx:46-100 | each control's handler replaces exactly its own field: the diet, skill or language option picked, the allergies text as typed, and the cuisine text or "Any" for an empty box; every other field is kept |
| Sidebar.ControlsKeepValid | components/Sidebar.tsx:45-105 | every diet, skill, cuisine, allergies or language control keeps the preferences within the option sets |
| Sidebar.ExactlyOneSkillHighlighted | components/Sidebar.tsx:59-66 | with a valid skill level exactly one skill button is highlighted |
| GeminiService.Decode | services/geminiService.ts:5-13 | the byte array has the binary string's length and holds each code unit modulo 256, which is the unit itself for a binary string |
| GeminiService.Int16At | services/geminiService.ts:21 | a little-endian two's-complement sample lies in [-32768, 32768) |
| GeminiService.Normalize | services/geminiService.ts:28 | dividing by 32768 lands in [-1, 1) and loses nothing |
| GeminiService.FrameInBounds | services/geminiService.ts:22-28 | each (channel, frame) index stays inside the samples |
| GeminiService.FrameCount | services/geminiService.ts:22-23 | the buffer length `createBuffer` gets: the sample count divided by the channel count, truncated (the largest whole number of frames that fits), and 0 without channels |
| GeminiService.DecodeAudioData | services/geminiService.ts:15-32 | an odd byte count fails, and so does a buffer `createBuffer` refuses; otherwise the buffer has the requested rate, channels and frame count, and channel c, frame i holds sample i·n+c normalised |
| GeminiService.EverySampleRead | services/geminiService.ts:22-28 | with an even split, every sample is read, as frame k/n of channel k mod n |
| GeminiService.NoSampleReadTwice | services/geminiService.ts:22-28 | distinct (channel, frame) pairs read distinct samples |
| GeminiService.AllergiesShown | services/geminiService.ts:78 | "None" is shown exactly when allergies are empty or literally "None"; non-empty allergies are shown verbatim |
| GeminiService.SystemInstruction | services/geminiService.ts:85 | the instruction starts with the base text, whole, and the preference block follows |
| GeminiService.PreferenceBlock | services/geminiService.ts:73-80 | the block opens with a line break, the heading line and the diet line |
| GeminiService.PreferencesOnOwnLines | services/geminiService.ts:73-80 | when no field holds a line break, the block splits into its eight lines, each preference on a line of its own |
| GeminiService.LinesWithoutBreaks | services/geminiService.ts:73-80 | with newline-free fields, none of the template's lines holds a line break |
| GeminiService.ChatSession.constructor | services/geminiService.ts:70-89 | a session is a new object bound to the preferences it was created with |
| GeminiService.ImagePrompt | services/geminiService.ts:98 | the request embeds the prompt verbatim between the fixed prefix and suffix |
| GeminiService.FirstCandidateParts | services/geminiService.ts:138 | `candidates?.[0]?.content?.parts`: absent when the call threw, when there are no candidates or an empty list, or when the first candidate has no content; otherwise the first candidate's parts |
| GeminiService.ResponseParts | services/geminiService.ts:107 | `candidates?.[0]?.content?.parts`, defaulting to the empty list: the first candidate's parts when the chain reaches them, otherwise the empty list, in particular for a thrown call |
| GeminiService.FirstInline | services/geminiService.ts:107-111 | the index found is the first part with inline data, or the end |
| GeminiService.GenerateDishImage | services/geminiService.ts:91-117 | the loop's result equals `DishImage` of the response to the templated prompt |
| GeminiService.DishImage | services/geminiService.ts:107-116 | a thrown call or no inline part gives no image; otherwise the image is exactly the data of the first part with inline data, and any image returned is that data |
| GeminiService.SafeText | services/geminiService.ts:123 | text of at most 500 units is sent as is; longer text becomes its first 500 units followed by "..." |
| GeminiService.SafeTextIdempotent | services/geminiService.ts:123 | truncating twice is truncating once |
| GeminiService.FirstPartAudio | services/geminiService.ts:138 | when the first part carries inline data its data is the audio, and audio is found nowhere else |
| GeminiService.FirstPartAudioIgnoresRest | services/geminiService.ts:138 | responses whose first parts agree yield the same audio; audio found is what the image scan of that response would return |
| GeminiService.GenerateSpeech | services/geminiService.ts:119-159 | (`SpeechOutcomeFits`) it fails exactly when the call throws or audio is present but `atob` throws or its byte count is odd or below two; it plays nothing exactly for absent or empty first-part audio; a played buffer is 24000 Hz and mono, with one frame per sample pair |
| App.SecondField | App.tsx:73 | `split(',')[1]` is present exactly when the string holds a comma; it is then the comma-free text that starts right after the first comma and runs to the next comma or the end |
| App.DataUrlBody | App.tsx:73 | `split(',')[1]` of a data URL `header,body` is the body, both for the user message and, at App.tsx:118, for the payload |
| App.UserMessage | App.tsx:67-74 | the user message carries the given id and the raw untrimmed input, is never loading, and its image is `SecondField` of a truthy preview and absent otherwise |
| App.MessagePayload | App.tsx:91-137 | with a preview the payload is a text part and the preview body as JPEG, the text being the input or, for an empty input, "Analyze this image and suggest recipes."; without one it is the input as typed |
| App.PreviewBodySent | App.tsx:68-137 | the user message and the payload both carry exactly the preview's base64 body |
| App.Accumulated | App.tsx:140-152 | the accumulated text is at least as long as the text of any one chunk |
| App.AccumulatedAppend | App.tsx:140-152 | accumulation respects order: two stretches of the stream give the first's text followed by the second's |
| App.AccumulatedEmptyIffNoText | App.tsx:140-152 | the accumulated text is empty exactly when no chunk carried text |
| App.ThreeFragments | App.tsx:140-152 | three streamed fragments accumulate to their concatenation |
| App.AccumulatedThree | App.tsx:140-152 | any three non-empty fragments accumulate to their texts in order |
| App.StreamStep | App.tsx:142-150 | one more chunk appends its text, if any, and turns "some chunk had text" on when it has text |
| App.Reply | App.tsx:79-160 | the reply keeps the placeholder's id, role and missing image; a failed stream shows the apology, not loading; a completed one shows the accumulated text and stays loading exactly when that text is empty |
| App.UpdateById | App.tsx:146-150 | the update keeps the length, rewrites text and loading of the messages with the id, and leaves every other message untouched |
| App.UpdateLast | App.tsx:146-150 | when the last message alone has the id, only it changes |
| App.AppendFreshId | App.tsx:76-81 | appending a message with a new id keeps ids distinct (also the caption message at App.tsx:190) |
| App.Caption | App.tsx:193 | the caption is the prompt verbatim between "Here is a visualization of the " and a colon |
| App.TranscriptGrows | App.tsx:68-86 | a send's two messages keep ids distinct and user messages never loading |
| App.Controller.constructor | App.tsx:15-47 | mounting: the welcome message, default preferences, idle, and a first session bound to the defaults when creation succeeds |
| App.Controller.UpdatePrefs | App.tsx:35-47 | the preferences are replaced; the session is recreated with them only when the language changed, and kept when creation throws |
| App.Controller.CanSend | App.tsx:55-56 | the guard never passes with an empty input and no picked image |
| App.Controller.SetInputValue | App.tsx:308 | the input box holds what was typed |
| App.Controller.HandleImageSelect | App.tsx:166-180 | a file over 5 MiB is rejected and nothing changes; any other file becomes the selected image |
| App.Controller.ImagePreviewLoaded | App.tsx:174-176 | the data URL read becomes the preview |
| App.Controller.RemoveImage | App.tsx:276 | the file and the preview are both dropped |
| App.Controller.ReceiveStream | App.tsx:140-160 | folding the stream into the placeholder leaves it as `Reply` of the stream, the earlier messages untouched |
| App.Controller.HandleSendMessage | App.tsx:54-164 | a failing guard changes nothing; otherwise inputs are cleared, the user message and the reply to the payload are appended, the transcript invariant holds, and the controller ends idle |
| App.Controller.HandleGenerateImage | App.tsx:182-198 | a non-empty image is appended as one captioned model message, otherwise the transcript is unchanged; the controller ends idle |
| App.Controller.HandleReadAloud | App.tsx:200-204 | the transcript is untouched, the controller ends idle, and the outcome is the one `generateSpeech` reaches for the text (`SpeechOutcomeFits`) |

## Left out

- Rendering: the JSX layout, markdown rendering, the sidebar's open and close, and auto-scrolling (App.tsx:49-52) are presentation only.
- The SDK itself (`getAI`, the model names, the temperature, voice and aspect-ratio settings) is left out. The calls are parameters that return what the service would.
- The text of `SYSTEM_INSTRUCTION_BASE` is a parameter of `SystemInstruction`. Only how the preference block is appended to it is modelled.
- Reading a file with `FileReader` and the `alert` are outside the model. `HandleImageSelect` reports the rejection, and `ImagePreviewLoaded` is the reader's completion.
- Clearing the file input element (App.tsx:65) is a DOM effect and is left out.
- The `console.error` logging (App.tsx:40 and 155, services/geminiService.ts:114 and 157) is left out: it changes no state the model holds.
- Audio playback (the `AudioContext`, the gain node and `start`) is left out. `GenerateSpeech` returns the buffer it would play.
- Asynchrony is left out: each handler runs to completion, so an interleaving of two handlers, or a stale closure over `prefs`, is not modelled.
- Date.now ids are supplied by the caller. `HandleSendMessage` and `HandleGenerateImage` require fresh ids, which the source assumes of the clock.
- Whitespace and case are ASCII only. `trim` and `toLowerCase` on other Unicode characters are not modelled.
- The `type` field of a message is never set by the core and is left out.
- `Int16At` assumes the little-endian byte order of the platforms the app runs on.
- GeminiService.FrameCount: with no channels the source divides by zero and passes `Infinity` or `NaN` on. The model gives 0 instead. `createBuffer` refuses both, so the decode fails either way.
- GeminiService.SafeText: counts characters as Unicode scalar values, while JavaScript's `length` counts UTF-16 code units; the two differ for characters outside the Basic Multilingual Plane (the welcome message's emoji is one character here and two units there).
