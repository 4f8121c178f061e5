/** The logic of one chat bubble (components/ChatMessage.tsx): the recipe
    heuristic, the image-prompt extraction, the image source and which
    action buttons appear. */
module ChatMessage {
  import opened ChefTypes
  import opened JsString

  /** `hasRecipe`: a model message whose lower-cased text mentions both
      "ingredients" and "instructions"; such a text is at least as long as
      the longer keyword. */
  predicate HasRecipe(m: Message)
    ensures HasRecipe(m) ==> m.role == Model && |"instructions"| <= |m.text|
  {
    m.role != User
    && Contains(ToLower(m.text), "ingredients")
    && Contains(ToLower(m.text), "instructions")
  }

  /** An occurrence of `w` in `s` is an occurrence of its lower-cased form in
      the lower-cased `s`. */
  lemma {:induction false} ContainsToLower(s: string, w: string)
    requires Contains(s, w)
    ensures Contains(ToLower(s), ToLower(w))
  {
    if w <= s {
      assert ToLower(w) <= ToLower(s) by {
        assert ToLower(s)[..|w|] == ToLower(w);
      }
    } else {
      ContainsToLower(s[1..], w);
      assert ToLower(s)[1..] == ToLower(s[1..]);
    }
  }

  /** The heuristic ignores case: a model message mentioning the two words in
      any capitalisation counts as a recipe. */
  lemma RecipeInAnyCase(m: Message, w1: string, w2: string)
    requires m.role == Model
    requires ToLower(w1) == "ingredients" && ToLower(w2) == "instructions"
    requires Contains(m.text, w1) && Contains(m.text, w2)
    ensures HasRecipe(m)
  {
    ContainsToLower(m.text, w1);
    ContainsToLower(m.text, w2);
  }

  /** A line `getPrompt` may pick: not blank once trimmed, and not starting
      with '#' as written (so an indented heading qualifies). */
  predicate Qualifies(line: string)
  {
    !Blank(line) && !StartsWith(line, "#")
  }

  /** `Qualifies` is the test the source writes, through `trim`. */
  lemma QualifiesAsWritten(line: string)
    ensures Qualifies(line) <==> |Trim(line)| > 0 && !StartsWith(line, "#")
  {
  }

  /** The index of the first qualifying line, or `|lines|` when none does. */
  function FirstQualifying(lines: seq<string>): (k: nat)
    ensures k <= |lines|
    ensures forall j :: 0 <= j < k ==> !Qualifies(lines[j])
    ensures k < |lines| ==> Qualifies(lines[k])
  {
    if lines == [] then 0
    else if Qualifies(lines[0]) then 0
    else 1 + FirstQualifying(lines[1..])
  }

  /** `s.replace(/[\*\#]/g, '')`: drops every '*' and '#' and keeps every
      other character, in order. */
  function StripMarkup(s: string): (r: string)
    ensures '*' !in r && '#' !in r
    ensures forall c :: c in r <==> c in s && c != '*' && c != '#'
    ensures |r| <= |s|
  {
    if s == [] then []
    else if s[0] == '*' || s[0] == '#' then StripMarkup(s[1..])
    else [s[0]] + StripMarkup(s[1..])
  }

  /** On one character: markup is dropped, anything else is kept. */
  lemma StripMarkupChar(c: char)
    ensures StripMarkup([c]) == if c == '*' || c == '#' then [] else [c]
  {
    assert [c][1..] == [];
  }

  /** Stripping works piece by piece, so the characters kept stay in their
      order and keep their number: together with `StripMarkupChar` this
      fixes `StripMarkup` on every input. */
  lemma {:induction false} StripMarkupAppend(a: string, b: string)
    ensures StripMarkup(a + b) == StripMarkup(a) + StripMarkup(b)
  {
    if a != [] {
      StripMarkupAppend(a[1..], b);
      assert (a + b)[1..] == a[1..] + b;
      assert (a + b)[0] == a[0];
    } else {
      assert a + b == b;
    }
  }

  /** Text without markup passes through unchanged. */
  lemma {:induction false} StripMarkupKeepsPlainText(s: string)
    requires '*' !in s && '#' !in s
    ensures StripMarkup(s) == s
  {
    if s != [] {
      StripMarkupKeepsPlainText(s[1..]);
      assert [s[0]] + s[1..] == s;
    }
  }

  const FallbackPrompt: string := "Delicious food"

  /** `getPrompt`: the first qualifying line of the text, or the fallback,
      stripped of '*' and '#' and then trimmed. The result holds no markup
      and no surrounding whitespace; it may be empty. */
  function GetPrompt(text: string): (r: string)
    ensures '*' !in r && '#' !in r
    ensures IsTrimmed(r)
  {
    var lines := Split(text, '\n');
    var k := FirstQualifying(lines);
    var line := if k < |lines| then lines[k] else FallbackPrompt;
    Trim(StripMarkup(line))
  }

  /** The line picked is the first qualifying one: any qualifying line `k`
      with no qualifying line before it gives the prompt. */
  lemma GetPromptPicksFirst(text: string, k: nat)
    requires k < |Split(text, '\n')|
    requires Qualifies(Split(text, '\n')[k])
    requires forall j :: 0 <= j < k ==> !Qualifies(Split(text, '\n')[j])
    ensures GetPrompt(text) == Trim(StripMarkup(Split(text, '\n')[k]))
  {
  }

  /** Without a qualifying line the prompt is "Delicious food". */
  lemma GetPromptFallback(text: string)
    requires forall j :: 0 <= j < |Split(text, '\n')| ==> !Qualifies(Split(text, '\n')[j])
    ensures GetPrompt(text) == FallbackPrompt
  {
    FallbackIsPlain();
  }

  /** The fallback has no markup and no surrounding whitespace. */
  lemma FallbackIsPlain()
    ensures Trim(StripMarkup(FallbackPrompt)) == FallbackPrompt
  {
    var f := FallbackPrompt;
    assert forall k :: 0 <= k < |f| ==> f[k] != '*' && f[k] != '#';
    StripMarkupKeepsPlainText(f);
    assert TrimStart(f) == f;
    assert TrimEnd(f) == f;
  }

  /** A line made only of markup qualifies and yields the empty prompt. */
  lemma GetPromptMayBeEmpty()
    ensures GetPrompt("**") == ""
  {
    assert Split("", '\n') == [""];
    assert Split("*", '\n') == ["*"];
    assert Split("**", '\n') == ["**"];
    assert Qualifies("**");
    assert StripMarkup("**") == "";
  }

  const DataUriPrefix: string := "data:image/jpeg;base64,"

  /** The `src` of a message image: a data URI is kept, bare base64 gets the
      JPEG data-URI prefix. */
  function ImageSrc(image: string): (src: string)
    ensures StartsWith(src, "data:")
    ensures StartsWith(image, "data:") ==> src == image
    ensures !StartsWith(image, "data:") ==> |src| == |DataUriPrefix| + |image|
    ensures !StartsWith(image, "data:") ==> src[|DataUriPrefix|..] == image && src[..|DataUriPrefix|] == DataUriPrefix
  {
    if StartsWith(image, "data:") then image else DataUriPrefix + image
  }

  /** Mapping a source a second time changes nothing. */
  lemma ImageSrcIdempotent(image: string)
    ensures ImageSrc(ImageSrc(image)) == ImageSrc(image)
  {
  }

  datatype ButtonKind = VisualizeDish | ReadRecipe

  /** An action button: what it does, the argument its click passes, and
      whether it is disabled. */
  datatype Button = Button(kind: ButtonKind, argument: string, disabled: bool)

  /** The action buttons under a message: none unless the message is a
      finished model message with a recipe; otherwise "Visualize Dish"
      passing the extracted prompt, disabled only while an image is being
      generated, and "Read Recipe" passing the whole text, disabled only
      while audio is being generated. */
  function ActionButtons(m: Message, isGeneratingImage: bool, isReadingAudio: bool): (bs: seq<Button>)
    ensures bs != [] <==> m.role != User && !m.isLoading && HasRecipe(m)
    ensures bs != [] ==> bs == [Button(VisualizeDish, GetPrompt(m.text), isGeneratingImage),
                                Button(ReadRecipe, m.text, isReadingAudio)]
  {
    if m.role != User && !m.isLoading && HasRecipe(m) then
      [Button(VisualizeDish, GetPrompt(m.text), isGeneratingImage),
       Button(ReadRecipe, m.text, isReadingAudio)]
    else []
  }

  /** A message still streaming, and every user message, has no buttons. */
  lemma NoButtonsWhileLoadingOrUser(m: Message, gi: bool, ra: bool)
    requires m.isLoading || m.role == User
    ensures ActionButtons(m, gi, ra) == []
  {
  }
}
