/** The conversation controller (App.tsx): the component's state as a class
    and its handlers as methods. The SDK sits behind parameters: `chat`
    maps a session and a message payload to the stream it yields,
    `generateContent` maps a request text to what the call produced, and
    `atob` decodes base64. Message ids, which the source takes from the
    clock, are supplied by the caller. */
module App {
  import opened ChefTypes
  import opened JsString
  import opened GeminiService

  const WelcomeText: string :=
    "\U{1F44B} Hi! I'm Chef Mate. Tell me what ingredients you have, and I'll help you cook something delicious! You can also show me a photo of your fridge."
  const Welcome: Message := Message("welcome", Model, WelcomeText, None, false)
  const Apology: string := "Sorry, I had trouble connecting to the kitchen server. Please try again."
  const DefaultImageText: string := "Analyze this image and suggest recipes."
  const MaxImageBytes: nat := 5 * 1024 * 1024

  /** A picked file; only its size matters here. */
  datatype ImageFile = ImageFile(size: nat)

  /** A string is truthy when it is present and not empty. */
  predicate Truthy(s: Option<string>)
  {
    s.Some? && s.value != ""
  }

  // ---------------------------------------------------------------------
  // What a send puts in the transcript and on the wire

  /** `s.split(',')[1]`: the text between the first comma and the next one
      (or the end), present exactly when there is a comma, and itself free
      of commas. */
  function SecondField(s: string): (r: Option<string>)
    ensures r.Some? <==> ',' in s
    ensures r.Some? ==> ',' !in r.value
    ensures r.Some? ==>
      exists i :: 0 <= i < |s| && s[i] == ',' && ',' !in s[..i]
        && i + 1 + |r.value| <= |s|
        && s[i + 1..i + 1 + |r.value|] == r.value
        && (i + 1 + |r.value| == |s| || s[i + 1 + |r.value|] == ',')
  {
    SplitCountsSeparators(s, ',');
    var fields := Split(s, ',');
    if |fields| > 1 then
      JoinSecondPiece(fields, ',');
      assert s[|fields[0]|] == ',' && ',' !in s[..|fields[0]|];
      Some(fields[1])
    else None
  }

  /** For a data URL `header,body` it is the base64 body. */
  lemma DataUrlBody(header: string, body: string)
    requires ',' !in header && ',' !in body
    ensures SecondField(header + "," + body) == Some(body)
  {
    SplitWithoutSep(body, ',');
    SplitAfterPiece(header, ',', body);
  }

  /** The user's message: the raw, untrimmed input, and the preview's
      base64 body when a preview is present. */
  function UserMessage(id: string, text: string, preview: Option<string>): (m: Message)
    ensures m.id == id && m.role == User && !m.isLoading
    ensures m.text == text
    ensures m.image.Some? ==> Truthy(preview) && ',' in preview.value
    ensures Truthy(preview) ==> m.image == SecondField(preview.value)
    ensures !Truthy(preview) ==> m.image == None
  {
    Message(id, User, text, if Truthy(preview) then SecondField(preview.value) else None, false)
  }

  datatype PayloadPart = TextPart(text: string) | ImagePart(mimeType: string, data: Option<string>)

  /** The `message` given to `sendMessageStream`: a plain string, or a list
      of parts. */
  datatype Payload = TextMessage(text: string) | MultiPart(parts: seq<PayloadPart>)

  /** The payload of a send. With a preview it is a text part followed by a
      JPEG image part holding the preview's body; the text part is never
      empty, the default request standing in for an empty input. Without a
      preview it is the input as typed. Only the preview decides the branch. */
  function MessagePayload(text: string, preview: Option<string>): (p: Payload)
    ensures p.MultiPart? <==> Truthy(preview)
    ensures p.TextMessage? ==> p.text == text
    ensures p.MultiPart? ==>
      && |p.parts| == 2
      && p.parts[0].TextPart? && p.parts[0].text != ""
      && (text != "" ==> p.parts[0].text == text)
      && (text == "" ==> p.parts[0].text == DefaultImageText)
      && p.parts[1] == ImagePart("image/jpeg", SecondField(preview.value))
  {
    if Truthy(preview) then
      MultiPart([TextPart(if text == "" then DefaultImageText else text),
                 ImagePart("image/jpeg", SecondField(preview.value))])
    else
      TextMessage(text)
  }

  /** With a data-URL preview `header,body`, both the transcript's user
      message and the payload's image part carry exactly the base64 body,
      and the payload's text is the input or, for an empty input, the
      default request. */
  lemma PreviewBodySent(id: string, text: string, header: string, body: string)
    requires ',' !in header && ',' !in body
    ensures UserMessage(id, text, Some(header + "," + body)).image == Some(body)
    ensures MessagePayload(text, Some(header + "," + body))
            == MultiPart([TextPart(if text == "" then DefaultImageText else text), ImagePart("image/jpeg", Some(body))])
  {
    DataUrlBody(header, body);
  }

  /** What the backend streams back: the chunks' `text` (each possibly
      absent or empty), in order, and whether an error is thrown after them
      (with no chunk, the call itself threw). */
  datatype Stream = Stream(chunks: seq<Option<string>>, fails: bool)

  /** The text accumulated from the chunks: the non-empty texts concatenated
      in arrival order. */
  function Accumulated(chunks: seq<Option<string>>): (r: string)
    ensures forall k :: 0 <= k < |chunks| && Truthy(chunks[k]) ==> |chunks[k].value| <= |r|
  {
    if chunks == [] then ""
    else
      var last := chunks[|chunks| - 1];
      Accumulated(chunks[..|chunks| - 1]) + (if Truthy(last) then last.value else "")
  }

  /** Some chunk carries text. */
  predicate AnyText(chunks: seq<Option<string>>)
  {
    exists k :: 0 <= k < |chunks| && Truthy(chunks[k])
  }

  /** Accumulation respects order: the text of two stretches of the stream
      is the first's followed by the second's. */
  lemma {:induction false} AccumulatedAppend(a: seq<Option<string>>, b: seq<Option<string>>)
    ensures Accumulated(a + b) == Accumulated(a) + Accumulated(b)
  {
    if b == [] {
      assert a + b == a;
    } else {
      var b', last := b[..|b| - 1], b[|b| - 1];
      var tail := if Truthy(last) then last.value else "";
      AccumulatedAppend(a, b');
      assert (a + b)[..|a + b| - 1] == a + b';
      assert (a + b)[|a + b| - 1] == last;
      assert Accumulated(a + b) == Accumulated(a + b') + tail;
      assert Accumulated(b) == Accumulated(b') + tail;
    }
  }

  /** The accumulated text is empty exactly when no chunk carried text, so a
      placeholder still loading after a complete stream has no text. */
  lemma {:induction false} AccumulatedEmptyIffNoText(chunks: seq<Option<string>>)
    ensures Accumulated(chunks) == "" <==> !AnyText(chunks)
  {
    if chunks != [] {
      var init := chunks[..|chunks| - 1];
      AccumulatedEmptyIffNoText(init);
      if AnyText(init) {
        var k :| 0 <= k < |init| && Truthy(init[k]);
        assert Truthy(chunks[k]);
      }
      if AnyText(chunks) && !Truthy(chunks[|chunks| - 1]) {
        var k :| 0 <= k < |chunks| && Truthy(chunks[k]);
        assert Truthy(init[k]);
      }
    }
  }

  /** Three fragments accumulate to their concatenation. */
  lemma ThreeFragments()
    ensures Accumulated([Some("Here's a "), Some("Chicken Rice "), Some("recipe!")])
            == "Here's a Chicken Rice recipe!"
  {
    AccumulatedThree("Here's a ", "Chicken Rice ", "recipe!");
    assert "Here's a " + "Chicken Rice " + "recipe!" == "Here's a Chicken Rice recipe!";
  }

  /** Three non-empty chunks accumulate to their texts in order. */
  lemma AccumulatedThree(x: string, y: string, z: string)
    requires x != "" && y != "" && z != ""
    ensures Accumulated([Some(x), Some(y), Some(z)]) == x + y + z
  {
    var a, b, c := Some(x), Some(y), Some(z);
    AccumulatedOne(a);
    AccumulatedOne(b);
    AccumulatedOne(c);
    AccumulatedAppend([a], [b]);
    assert [a] + [b] == [a, b];
    AccumulatedAppend([a, b], [c]);
    assert [a, b] + [c] == [a, b, c];
  }

  /** A single chunk contributes its text exactly when it is truthy. */
  lemma AccumulatedOne(c: Option<string>)
    ensures Accumulated([c]) == if Truthy(c) then c.value else ""
  {
    assert [c][..0] == [];
  }

  /** The placeholder once the stream is over: a model message without
      image; the apology, not loading, when the stream failed, whatever text
      arrived before; otherwise the accumulated text, still loading exactly
      when that text is empty. */
  function Reply(id: string, s: Stream): (m: Message)
    ensures m.id == id && m.role == Model && m.image == None
    ensures s.fails ==> m.text == Apology && !m.isLoading
    ensures !s.fails ==> m.text == Accumulated(s.chunks) && (m.isLoading <==> m.text == "")
  {
    AccumulatedEmptyIffNoText(s.chunks);
    if s.fails then Message(id, Model, Apology, None, false)
    else Message(id, Model, Accumulated(s.chunks), None, !AnyText(s.chunks))
  }

  /** `prev.map(msg => msg.id === id ? { ...msg, text, isLoading: false } : msg)`:
      the same number of messages; those with id `id` get the text and stop
      loading, keeping id, role and image; all others are untouched. */
  function UpdateById(ms: seq<Message>, id: string, text: string): (r: seq<Message>)
    ensures |r| == |ms|
    ensures forall k :: 0 <= k < |ms| && ms[k].id != id ==> r[k] == ms[k]
    ensures forall k :: 0 <= k < |ms| && ms[k].id == id ==>
              r[k] == ms[k].(text := text, isLoading := false)
  {
    if ms == [] then []
    else
      var m := ms[0];
      [if m.id == id then m.(text := text, isLoading := false) else m] + UpdateById(ms[1..], id, text)
  }

  /** No message in `ms` has id `id`. */
  predicate IdFree(ms: seq<Message>, id: string)
  {
    forall k :: 0 <= k < |ms| ==> ms[k].id != id
  }

  /** Appending a message with another id keeps `id` free. */
  lemma IdFreeAppend(ms: seq<Message>, m: Message, id: string)
    requires IdFree(ms, id) && m.id != id
    ensures IdFree(ms + [m], id)
  {
    forall k | 0 <= k < |ms| + 1 ensures (ms + [m])[k].id != id {
      if k < |ms| {
        assert (ms + [m])[k] == ms[k];
      }
    }
  }

  /** Updating a list whose only message with id `id` is the last one
      rewrites that message alone. */
  lemma UpdateLast(before: seq<Message>, last: Message, text: string)
    requires IdFree(before, last.id)
    ensures UpdateById(before + [last], last.id, text) == before + [last.(text := text, isLoading := false)]
  {
    var ms := before + [last];
    var r := UpdateById(ms, last.id, text);
    forall k | 0 <= k < |before| ensures r[k] == before[k] {
      assert ms[k] == before[k];
    }
  }

  predicate DistinctIds(ms: seq<Message>)
  {
    forall i, j :: 0 <= i < j < |ms| ==> ms[i].id != ms[j].id
  }

  lemma AppendFreshId(ms: seq<Message>, m: Message)
    requires DistinctIds(ms) && IdFree(ms, m.id)
    ensures DistinctIds(ms + [m])
  {
  }

  /** One more chunk: its text, if any, is appended to what was accumulated,
      and some chunk carries text when one did before or this one does. */
  lemma StreamStep(chunks: seq<Option<string>>, i: nat)
    requires i < |chunks|
    ensures Accumulated(chunks[..i + 1]) == Accumulated(chunks[..i]) + (if Truthy(chunks[i]) then chunks[i].value else "")
    ensures AnyText(chunks[..i + 1]) <==> AnyText(chunks[..i]) || Truthy(chunks[i])
  {
    assert chunks[..i + 1][..i] == chunks[..i];
    if AnyText(chunks[..i + 1]) && !Truthy(chunks[i]) {
      var k :| 0 <= k < i + 1 && Truthy(chunks[..i + 1][k]);
      assert Truthy(chunks[..i][k]);
    }
    if AnyText(chunks[..i]) {
      var k :| 0 <= k < i && Truthy(chunks[..i][k]);
      assert Truthy(chunks[..i + 1][k]);
    }
    if Truthy(chunks[i]) {
      assert Truthy(chunks[..i + 1][i]);
    }
  }

  /** The transcript invariant: message ids are distinct and a user message
      never shows as loading. */
  predicate GoodTranscript(ms: seq<Message>)
  {
    && DistinctIds(ms)
    && forall k :: 0 <= k < |ms| && ms[k].role == User ==> !ms[k].isLoading
  }

  /** A send appends a finished user message and a model reply with fresh,
      distinct ids, which keeps the transcript invariant. */
  lemma TranscriptGrows(ms: seq<Message>, user: Message, reply: Message)
    requires GoodTranscript(ms)
    requires user.role == User && !user.isLoading && reply.role == Model
    requires user.id != reply.id && IdFree(ms, user.id) && IdFree(ms, reply.id)
    ensures GoodTranscript(ms + [user, reply])
  {
    AppendFreshId(ms, user);
    assert IdFree(ms + [user], reply.id);
    AppendFreshId(ms + [user], reply);
    assert ms + [user] + [reply] == ms + [user, reply];
  }

  const CaptionPrefix: string := "Here is a visualization of the "

  /** The caption of a generated image: the prompt verbatim between a fixed
      lead-in and a colon. */
  function Caption(prompt: string): (c: string)
    ensures StartsWith(c, CaptionPrefix)
    ensures |c| == |CaptionPrefix| + |prompt| + 1
    ensures c[|CaptionPrefix|..|c| - 1] == prompt && c[|c| - 1] == ':'
  {
    CaptionPrefix + prompt + ":"
  }

  // ---------------------------------------------------------------------
  // The component's state

  class Controller {
    var prefs: UserPreferences
    var messages: seq<Message>
    var inputValue: string
    var loadingState: LoadingState
    var chatSession: ChatSession?
    var selectedImage: Option<ImageFile>
    var imagePreview: Option<string>

    /** Message ids are distinct and a user message never shows as loading. */
    ghost predicate Valid()
      reads this
    {
      GoodTranscript(messages)
    }

    /** The send guard passes: text that is not empty once trimmed, or a
        picked image; the controller idle; and a session. */
    predicate CanSend()
      reads this
      ensures CanSend() ==> inputValue != "" || selectedImage.Some?
    {
      && (!Blank(inputValue) || selectedImage.Some?)
      && loadingState == Idle
      && chatSession != null
    }

    /** Mounting: the welcome message, default preferences, idle, and the
        first session when its creation succeeds (none otherwise). */
    constructor (creationSucceeds: bool)
      ensures Valid()
      ensures prefs == DefaultPreferences && messages == [Welcome]
      ensures inputValue == "" && loadingState == Idle
      ensures selectedImage == None && imagePreview == None
      ensures creationSucceeds ==> chatSession != null && fresh(chatSession) && chatSession.prefs == DefaultPreferences
      ensures !creationSucceeds ==> chatSession == null
    {
      prefs := DefaultPreferences;
      messages := [Welcome];
      inputValue := "";
      loadingState := Idle;
      selectedImage := None;
      imagePreview := None;
      if creationSucceeds {
        chatSession := new ChatSession(DefaultPreferences);
      } else {
        chatSession := null;
      }
    }

    /** The preferences change; the effect keyed on `prefs.language`
        replaces the session only when the language changed and creation
        succeeds, keeping the old one (or none) when creation throws. */
    method UpdatePrefs(newPrefs: UserPreferences, creationSucceeds: bool)
      modifies this
      ensures prefs == newPrefs
      ensures newPrefs.language == old(prefs.language) ==> chatSession == old(chatSession)
      ensures newPrefs.language != old(prefs.language) && creationSucceeds ==>
                chatSession != null && fresh(chatSession) && chatSession.prefs == newPrefs
      ensures newPrefs.language != old(prefs.language) && !creationSucceeds ==>
                chatSession == old(chatSession)
      ensures messages == old(messages) && inputValue == old(inputValue)
      ensures loadingState == old(loadingState)
      ensures selectedImage == old(selectedImage) && imagePreview == old(imagePreview)
    {
      var languageChanged := newPrefs.language != prefs.language;
      prefs := newPrefs;
      if languageChanged && creationSucceeds {
        chatSession := new ChatSession(newPrefs);
      }
    }

    /** The input box's `onChange`. */
    method SetInputValue(text: string)
      modifies this`inputValue
      ensures inputValue == text
    {
      inputValue := text;
    }

    /** `handleImageSelect`: a file over 5 MiB is refused with an alert
        (`rejected`) and nothing changes; otherwise it becomes the selected
        image. The preview arrives later, through `ImagePreviewLoaded`. */
    method HandleImageSelect(file: Option<ImageFile>) returns (rejected: bool)
      modifies this`selectedImage
      ensures rejected <==> file.Some? && file.value.size > MaxImageBytes
      ensures selectedImage == if file.Some? && !rejected then file else old(selectedImage)
    {
      rejected := false;
      if file.Some? {
        if file.value.size > MaxImageBytes {
          rejected := true;
          return;
        }
        selectedImage := file;
      }
    }

    /** The `FileReader`'s `onloadend`: the data URL becomes the preview. */
    method ImagePreviewLoaded(dataUrl: string)
      modifies this`imagePreview
      ensures imagePreview == Some(dataUrl)
    {
      imagePreview := Some(dataUrl);
    }

    /** The remove button on the preview: drops both the file and its
        preview. */
    method RemoveImage()
      modifies this`selectedImage, this`imagePreview
      ensures selectedImage == None && imagePreview == None
    {
      selectedImage := None;
      imagePreview := None;
    }

    /** The `for await` loop of `handleSendMessage` and its `catch`: the
        last message is the loading placeholder, the only one with its id;
        each chunk with text extends the accumulated text and writes it into
        the placeholder, and a failure writes the apology there instead.
        Afterwards the placeholder is `Reply(aiId, stream)`. */
    method ReceiveStream(aiId: string, stream: Stream)
      requires |messages| >= 1 && messages[|messages| - 1] == Message(aiId, Model, "", None, true)
      requires IdFree(messages[..|messages| - 1], aiId)
      modifies this`messages
      ensures messages == old(messages[..|messages| - 1]) + [Reply(aiId, stream)]
    {
      ghost var before := messages[..|messages| - 1];
      var placeholder := messages[|messages| - 1];
      assert messages == before + [placeholder];
      var accumulatedText := "";
      for i := 0 to |stream.chunks|
        invariant accumulatedText == Accumulated(stream.chunks[..i])
        invariant messages == before + [placeholder.(text := accumulatedText, isLoading := !AnyText(stream.chunks[..i]))]
      {
        StreamStep(stream.chunks, i);
        var chunkText := stream.chunks[i];
        if Truthy(chunkText) {
          accumulatedText := accumulatedText + chunkText.value;
          UpdateLast(before, messages[|messages| - 1], accumulatedText);
          messages := UpdateById(messages, aiId, accumulatedText);
        }
      }
      assert stream.chunks[..|stream.chunks|] == stream.chunks;
      if stream.fails {
        UpdateLast(before, messages[|messages| - 1], Apology);
        messages := UpdateById(messages, aiId, Apology);
      }
    }

    /** `handleSendMessage`. When the guard fails nothing changes. Otherwise
        the inputs are cleared, the user message and a loading placeholder
        are appended, the payload is sent, the stream is folded into the
        placeholder, and the controller ends idle. */
    method HandleSendMessage(userId: string, aiId: string, chat: (ChatSession, Payload) -> Stream)
      requires Valid()
      requires userId != aiId && IdFree(messages, userId) && IdFree(messages, aiId)
      modifies this
      ensures Valid()
      ensures !old(CanSend()) ==> unchanged(this)
      ensures old(CanSend()) ==>
        && inputValue == "" && selectedImage == None && imagePreview == None
        && loadingState == Idle
        && prefs == old(prefs) && chatSession == old(chatSession)
        && messages == old(messages) + [
             UserMessage(userId, old(inputValue), old(imagePreview)),
             Reply(aiId, chat(old(chatSession), MessagePayload(old(inputValue), old(imagePreview))))]
    {
      if (Blank(inputValue) && selectedImage.None?) || loadingState != Idle {
        return;
      }
      if chatSession == null {
        return;
      }
      var userText := inputValue;
      var userImg := imagePreview;

      inputValue := "";
      selectedImage := None;
      imagePreview := None;

      var userMsg := UserMessage(userId, userText, userImg);
      ghost var start := messages;
      messages := messages + [userMsg];
      loadingState := Sending;

      var placeholder := Message(aiId, Model, "", None, true);
      IdFreeAppend(start, userMsg, aiId);
      messages := messages + [placeholder];
      assert messages[..|messages| - 1] == start + [userMsg];

      var stream := chat(chatSession, MessagePayload(userText, userImg));
      ReceiveStream(aiId, stream);
      loadingState := Idle;
      var reply := Reply(aiId, stream);
      TranscriptGrows(start, userMsg, reply);
      assert messages == start + [userMsg, reply];
    }

    /** `handleGenerateImage`: no idle check; brackets the generation with
        GeneratingImage and ends idle; a non-empty image is appended as one
        captioned model message, otherwise the transcript is unchanged. */
    method HandleGenerateImage(prompt: string, id: string, generateContent: string -> CallResult)
      requires Valid() && IdFree(messages, id)
      modifies this
      ensures Valid()
      ensures loadingState == Idle
      ensures var image := DishImage(generateContent(ImagePrompt(prompt)));
              messages == if Truthy(image) then old(messages) + [Message(id, Model, Caption(prompt), image, false)]
                          else old(messages)
      ensures prefs == old(prefs) && chatSession == old(chatSession) && inputValue == old(inputValue)
      ensures selectedImage == old(selectedImage) && imagePreview == old(imagePreview)
    {
      loadingState := GeneratingImage;
      var base64Image := GenerateDishImage(prompt, generateContent);
      if Truthy(base64Image) {
        var m := Message(id, Model, Caption(prompt), base64Image, false);
        AppendFreshId(messages, m);
        messages := messages + [m];
      }
      loadingState := Idle;
    }

    /** `handleReadAloud`: no idle check; brackets speech generation with
        GeneratingAudio and ends idle; the transcript never changes. The
        outcome of speech generation for the text is returned. */
    method HandleReadAloud(text: string, generateContent: string -> CallResult,
                           atob: string -> Option<string>)
      returns (outcome: SpeechOutcome)
      modifies this`loadingState
      ensures loadingState == Idle
      ensures SpeechOutcomeFits(text, generateContent, atob, outcome)
    {
      loadingState := GeneratingAudio;
      outcome := GenerateSpeech(text, generateContent, atob);
      loadingState := Idle;
    }
  }
}
