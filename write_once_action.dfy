/** The write-once variant of `run()` (the older JavaScript source):
    generate a description and write it, bare, only into a pull request
    whose body is empty; leave any other body alone. */
module WriteOnceAction {
  import opened Wrappers
  import opened Js
  import opened Changes
  import opened Providers
  import opened Section
  import opened Runtime

  const SkippedMessage: string := "PR already has a description, skipping update"

  /** `core.setFailed(error.message)`: a thrown value that is not an `Error`
      has no message, and `setFailed` renders the undefined message as the
      empty string. */
  function Report(e: Thrown): string
  {
    match e
    case Error(m) => m
    case NonError => ""
  }

  function ChosenProvider(inputs: Inputs): Provider
  {
    SelectProviderWriteOnce(inputs.modelProvider, inputs.anthropicApiKey)
  }

  /** The request sent to provider `p`: no system prompt, and the OpenAI key
      is passed even when it is empty. */
  function Request(p: Provider, inputs: Inputs, changes: seq<FileChange>): Call
  {
    match p
    case Anthropic =>
      CreateMessage(inputs.anthropicApiKey, ModelOrDefault(Anthropic, inputs.model),
                    None, MaxTokens, changes)
    case OpenAI =>
      CreateChatCompletion(inputs.openaiApiKey, ModelOrDefault(OpenAI, inputs.model), changes)
  }

  /** The description provider `p` yields; it may be null or undefined. */
  function Generation(p: Provider, services: Services): Result<Option<string>, Thrown>
  {
    match p
    case Anthropic =>
      (match services.anthropic
       case Threw(e) => Err(e)
       case Returned(response) => FirstBlockText(response))
    case OpenAI =>
      (match services.openai
       case Threw(e) => Err(e)
       case Returned(response) => FirstChoiceText(response))
  }

  // How far a run gets before it stops, after `Runtime.Listed`.

  predicate Described(inputs: Inputs, context: Context, services: Services)
  {
    Listed(inputs, context, services) && Generation(ChosenProvider(inputs), services).Ok?
  }

  predicate Fetched(inputs: Inputs, context: Context, services: Services)
  {
    Described(inputs, context, services) && services.getPull.Returned?
  }

  /** One run: the calls made, in order, and how the run ends. The body is
      written only when the pull request's body is null or empty, and then
      it is exactly the generated description. */
  method Run(inputs: Inputs, context: Context, services: Services)
    returns (calls: seq<Call>, outcome: Outcome)
    ensures inputs.githubToken == "" ==> calls == [] && outcome == Failed(MissingTokenMessage)
    ensures inputs.githubToken != "" && context.pullRequest.None? ==>
      calls == [] && outcome == Failed(ReadOfUndefined("number"))
    ensures Started(inputs, context) ==> |calls| >= 1 && calls[0] == ListFiles(PullOf(context))
    ensures Started(inputs, context) && services.listFiles.Threw? ==>
      |calls| == 1 && outcome == Failed(Report(services.listFiles.error))
    ensures Listed(inputs, context, services) ==>
      |calls| >= 2
      && calls[1] == Request(ChosenProvider(inputs), inputs, Summarize(services.listFiles.value))
    ensures Listed(inputs, context, services) && Generation(ChosenProvider(inputs), services).Err? ==>
      |calls| == 2 && outcome == Failed(Report(Generation(ChosenProvider(inputs), services).error))
    ensures Described(inputs, context, services) ==> |calls| >= 3 && calls[2] == GetPull(PullOf(context))
    ensures Described(inputs, context, services) && services.getPull.Threw? ==>
      |calls| == 3 && outcome == Failed(Report(services.getPull.error))
    ensures Fetched(inputs, context, services) && BodyText(services.getPull.value.body) == "" ==>
      && |calls| == 4
      && calls[3] == UpdatePull(PullOf(context), Generation(ChosenProvider(inputs), services).value)
      && outcome == (if services.update.Returned? then Succeeded(UpdatedMessage)
                     else Failed(Report(services.update.error)))
    ensures Fetched(inputs, context, services) && BodyText(services.getPull.value.body) != "" ==>
      |calls| == 3 && outcome == Succeeded(SkippedMessage)
    ensures UpdateOnlyLast(calls)
    ensures forall k :: 0 <= k < |calls| && calls[k].UpdatePull? ==>
      Fetched(inputs, context, services) && BodyText(services.getPull.value.body) == ""
  {
    calls := [];
    var thrown: Option<Thrown> := None;
    var info := UpdatedMessage;
    label attempt: {
      if inputs.githubToken == "" {
        thrown := Some(Error(MissingTokenMessage));
        break attempt;
      }
      if context.pullRequest.None? {
        thrown := Some(Error(ReadOfUndefined("number")));
        break attempt;
      }
      var pull := PullOf(context);

      calls := calls + [ListFiles(pull)];
      if services.listFiles.Threw? {
        thrown := Some(services.listFiles.error);
        break attempt;
      }
      var changes := Summarize(services.listFiles.value);

      var description: Option<string>;
      if AnthropicRequested(inputs.modelProvider, inputs.anthropicApiKey) {
        calls := calls + [Request(Anthropic, inputs, changes)];
        if services.anthropic.Threw? {
          thrown := Some(services.anthropic.error);
          break attempt;
        }
        var text := FirstBlockText(services.anthropic.value);
        if text.Err? {
          thrown := Some(text.error);
          break attempt;
        }
        description := text.value;
      } else {
        calls := calls + [Request(OpenAI, inputs, changes)];
        if services.openai.Threw? {
          thrown := Some(services.openai.error);
          break attempt;
        }
        var text := FirstChoiceText(services.openai.value);
        if text.Err? {
          thrown := Some(text.error);
          break attempt;
        }
        description := text.value;
      }

      calls := calls + [GetPull(pull)];
      if services.getPull.Threw? {
        thrown := Some(services.getPull.error);
        break attempt;
      }

      if BodyText(services.getPull.value.body) == "" {
        calls := calls + [UpdatePull(pull, description)];
        if services.update.Threw? {
          thrown := Some(services.update.error);
          break attempt;
        }
      } else {
        info := SkippedMessage;
      }
    }
    outcome := match thrown
      case Some(e) => Failed(Report(e))
      case None => Succeeded(info);
  }
}
