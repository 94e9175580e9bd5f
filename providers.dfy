/** Choosing the language-model provider and extracting the generated text
    from its reply, in both variants of the action. */
module Providers {
  import opened Wrappers
  import opened Js

  datatype Provider = Anthropic | OpenAI

  const AnthropicDefaultModel: string := "claude-3-sonnet-20240229"
  const OpenAIDefaultModel: string := "gpt-4"

  const NoProviderKeyMessage: string := "Either OpenAI or Anthropic API key must be provided"
  const AnthropicFormatMessage: string := "Unexpected response format from Anthropic API"
  const OpenAIFormatMessage: string := "Unexpected response format from OpenAI API"

  /** Anthropic is used when it is the requested provider and its key is set. */
  predicate AnthropicRequested(modelProvider: string, anthropicApiKey: string)
  {
    modelProvider == "anthropic" && anthropicApiKey != ""
  }

  /** The reconcile variant's choice: Anthropic when requested and keyed,
      otherwise OpenAI when keyed, otherwise an error. */
  function SelectProvider(modelProvider: string, anthropicApiKey: string, openaiApiKey: string)
    : (r: Result<Provider, Thrown>)
    ensures r == Ok(Anthropic) <==> AnthropicRequested(modelProvider, anthropicApiKey)
    ensures r == Ok(OpenAI) <==> !AnthropicRequested(modelProvider, anthropicApiKey) && openaiApiKey != ""
    ensures r.Err? <==> !AnthropicRequested(modelProvider, anthropicApiKey) && openaiApiKey == ""
    ensures r.Err? ==> r.error == Error(NoProviderKeyMessage)
  {
    if AnthropicRequested(modelProvider, anthropicApiKey) then Ok(Anthropic)
    else if openaiApiKey != "" then Ok(OpenAI)
    else Err(Error(NoProviderKeyMessage))
  }

  /** The write-once variant's choice: Anthropic when requested and keyed,
      otherwise OpenAI whatever its key. */
  function SelectProviderWriteOnce(modelProvider: string, anthropicApiKey: string): (p: Provider)
    ensures p == Anthropic <==> AnthropicRequested(modelProvider, anthropicApiKey)
  {
    if AnthropicRequested(modelProvider, anthropicApiKey) then Anthropic else OpenAI
  }

  /** The two policies agree whenever the reconcile variant finds a provider;
      where it reports a missing key, the write-once variant calls OpenAI. */
  lemma SelectionPoliciesAgree(modelProvider: string, anthropicApiKey: string, openaiApiKey: string)
    ensures var r := SelectProvider(modelProvider, anthropicApiKey, openaiApiKey);
      var p := SelectProviderWriteOnce(modelProvider, anthropicApiKey);
      && (r.Ok? ==> r.value == p)
      && (r.Err? ==> p == OpenAI)
  {
  }

  function DefaultModel(p: Provider): string
  {
    match p
    case Anthropic => AnthropicDefaultModel
    case OpenAI => OpenAIDefaultModel
  }

  /** `model || default`: the requested model, or the provider's default
      when the input is empty. The model named in a request is never empty. */
  function ModelOrDefault(p: Provider, model: string): (m: string)
    ensures m != ""
    ensures model != "" ==> m == model
    ensures model == "" ==> m == DefaultModel(p)
  {
    if model != "" then model else DefaultModel(p)
  }

  // ---- Anthropic messages API ----

  /** A content block of a message; blocks other than text (a tool call, for
      one) have no `text` field. */
  datatype ContentBlock = TextBlock(text: string) | ToolUseBlock(name: string)

  /** The reply to `messages.create`; `content` may be missing. */
  datatype AnthropicResponse = AnthropicResponse(content: Option<seq<ContentBlock>>)

  /** `block.text` as `Array.prototype.join` renders it: an undefined text is
      the empty string. */
  function BlockText(b: ContentBlock): string
  {
    match b
    case TextBlock(t) => t
    case ToolUseBlock(_) => ""
  }

  /** `content.map(block => block.text).join('')`. */
  function JoinTexts(blocks: seq<ContentBlock>): (text: string)
    ensures blocks == [] ==> text == ""
  {
    if blocks == [] then "" else BlockText(blocks[0]) + JoinTexts(blocks[1..])
  }

  /** The joined text keeps the blocks' order: joining two consecutive runs of
      blocks gives their texts one after the other. */
  lemma {:induction false} JoinTextsAppend(front: seq<ContentBlock>, back: seq<ContentBlock>)
    ensures JoinTexts(front + back) == JoinTexts(front) + JoinTexts(back)
  {
    if front == [] {
      assert front + back == back;
    } else {
      assert (front + back)[1..] == front[1..] + back;
      JoinTextsAppend(front[1..], back);
    }
  }

  /** Every block's text appears in the joined text, at the offset given by
      the blocks before it. */
  lemma JoinTextsAt(blocks: seq<ContentBlock>, k: nat)
    requires k < |blocks|
    ensures var before := |JoinTexts(blocks[..k])|;
      var t := BlockText(blocks[k]);
      before + |t| <= |JoinTexts(blocks)| && JoinTexts(blocks)[before..before + |t|] == t
  {
    assert blocks == blocks[..k] + ([blocks[k]] + blocks[k + 1..]);
    JoinTextsAppend(blocks[..k], [blocks[k]] + blocks[k + 1..]);
    JoinTextsAppend([blocks[k]], blocks[k + 1..]);
    assert JoinTexts([blocks[k]]) == BlockText(blocks[k]);
  }

  /** The reconcile variant's extraction: only a missing `content` is an
      error; any list of blocks, the empty one included, yields text. */
  function ExtractAnthropic(response: AnthropicResponse): (r: Result<string, Thrown>)
    ensures r.Err? <==> response.content.None?
    ensures r.Err? ==> r.error == Error(AnthropicFormatMessage)
    ensures r.Ok? ==> r.value == JoinTexts(response.content.value)
  {
    match response.content
    case None => Err(Error(AnthropicFormatMessage))
    case Some(blocks) => Ok(JoinTexts(blocks))
  }

  /** The write-once variant's extraction, `response.content[0].text`:
      reading through a missing list or a missing first block throws a
      TypeError; a first block without text yields an undefined text. */
  function FirstBlockText(response: AnthropicResponse): (r: Result<Option<string>, Thrown>)
    ensures r.Ok? <==> response.content.Some? && |response.content.value| > 0
    ensures r.Ok? ==> r.value.Some? == response.content.value[0].TextBlock?
    ensures r.Ok? && r.value.Some? ==> r.value.value == response.content.value[0].text
    ensures response.content.None? ==> r == Err(Error(ReadOfUndefined("0")))
    ensures response.content == Some([]) ==> r == Err(Error(ReadOfUndefined("text")))
  {
    match response.content
    case None => Err(Error(ReadOfUndefined("0")))
    case Some(blocks) =>
      if blocks == [] then Err(Error(ReadOfUndefined("text")))
      else match blocks[0]
        case TextBlock(t) => Ok(Some(t))
        case ToolUseBlock(_) => Ok(None)
  }

  /** Where the write-once variant finds a text, it is the start of what the
      reconcile variant extracts, and the two are equal exactly when the
      remaining blocks contribute no text. */
  lemma AnthropicExtractionsAgree(response: AnthropicResponse)
    requires FirstBlockText(response).Ok? && FirstBlockText(response).value.Some?
    ensures var first := FirstBlockText(response).value.value;
      var joined := ExtractAnthropic(response).value;
      && ExtractAnthropic(response).Ok?
      && |first| <= |joined| && joined[..|first|] == first
      && (joined == first <==> JoinTexts(response.content.value[1..]) == "")
  {
  }

  // ---- OpenAI chat completions API ----

  /** A chat message; its `content` may be null. */
  datatype ChatMessage = ChatMessage(content: Option<string>)

  datatype Choice = Choice(message: Option<ChatMessage>)

  /** The reply to `chat.completions.create`; `choices` may be missing. */
  datatype OpenAIResponse = OpenAIResponse(choices: Option<seq<Choice>>)

  /** The first choice carries a message with non-empty content. */
  predicate HasFirstContent(response: OpenAIResponse)
  {
    && response.choices.Some?
    && |response.choices.value| > 0
    && response.choices.value[0].message.Some?
    && response.choices.value[0].message.value.content.Some?
    && response.choices.value[0].message.value.content.value != ""
  }

  /** The reconcile variant's extraction,
      `response.choices?.[0]?.message?.content`, with every missing link and
      an empty content reported as a format error. */
  function ExtractOpenAI(response: OpenAIResponse): (r: Result<string, Thrown>)
    ensures r.Ok? <==> HasFirstContent(response)
    ensures r.Ok? ==> r.value != "" && r.value == response.choices.value[0].message.value.content.value
    ensures r.Err? ==> r.error == Error(OpenAIFormatMessage)
  {
    match response.choices
    case None => Err(Error(OpenAIFormatMessage))
    case Some(choices) =>
      if |choices| == 0 then Err(Error(OpenAIFormatMessage))
      else match choices[0].message
        case None => Err(Error(OpenAIFormatMessage))
        case Some(message) =>
          match message.content
          case None => Err(Error(OpenAIFormatMessage))
          case Some(text) => if text == "" then Err(Error(OpenAIFormatMessage)) else Ok(text)
  }

  /** The write-once variant's extraction, `response.choices[0].message.content`:
      reading through a missing link throws a TypeError; a null content is
      taken as it is. */
  function FirstChoiceText(response: OpenAIResponse): (r: Result<Option<string>, Thrown>)
    ensures r.Ok? <==>
      response.choices.Some? && |response.choices.value| > 0 && response.choices.value[0].message.Some?
    ensures r.Ok? ==> r.value == response.choices.value[0].message.value.content
    ensures r.Err? ==> r.error.Error?
    ensures response.choices.None? ==> r == Err(Error(ReadOfUndefined("0")))
  {
    match response.choices
    case None => Err(Error(ReadOfUndefined("0")))
    case Some(choices) =>
      if |choices| == 0 then Err(Error(ReadOfUndefined("message")))
      else match choices[0].message
        case None => Err(Error(ReadOfUndefined("content")))
        case Some(message) => Ok(message.content)
  }

  /** The reconcile variant accepts exactly the replies from which the
      write-once variant reads a non-empty content, and both take the same
      text from them. */
  lemma OpenAIExtractionsAgree(response: OpenAIResponse)
    ensures ExtractOpenAI(response).Ok?
      <==> FirstChoiceText(response).Ok? && FirstChoiceText(response).value.Some?
           && FirstChoiceText(response).value.value != ""
    ensures ExtractOpenAI(response).Ok?
      ==> FirstChoiceText(response) == Ok(Some(ExtractOpenAI(response).value))
  {
  }
}
