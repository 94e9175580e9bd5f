/** The reconcile variant of `run()` (the TypeScript source and its
    compiled JavaScript): summarise the changed files, generate a
    description, and merge it into the pull request's body under the
    generated-section marker. */
module ReconcileAction {
  import opened Wrappers
  import opened Js
  import opened Changes
  import opened Providers
  import opened Section
  import opened Runtime

  const NotPullRequestMessage: string := "This action can only be run on pull request events"
  const UnexpectedErrorMessage: string := "An unexpected error occurred"
  const SystemPrompt: string :=
    "You are a helpful assistant that creates clear and concise pull request descriptions."

  /** The `catch` block: an `Error`'s message, or a fixed text for any other
      thrown value. */
  function Report(e: Thrown): string
  {
    match e
    case Error(m) => m
    case NonError => UnexpectedErrorMessage
  }

  function ChosenProvider(inputs: Inputs): Result<Provider, Thrown>
  {
    SelectProvider(inputs.modelProvider, inputs.anthropicApiKey, inputs.openaiApiKey)
  }

  /** The request sent to provider `p`. */
  function Request(p: Provider, inputs: Inputs, changes: seq<FileChange>): Call
  {
    match p
    case Anthropic =>
      CreateMessage(inputs.anthropicApiKey, ModelOrDefault(Anthropic, inputs.model),
                    Some(SystemPrompt), MaxTokens, changes)
    case OpenAI =>
      CreateChatCompletion(inputs.openaiApiKey, ModelOrDefault(OpenAI, inputs.model), changes)
  }

  /** The description provider `p` yields: its reply, then the extraction. */
  function Generation(p: Provider, services: Services): Result<string, Thrown>
  {
    match p
    case Anthropic =>
      (match services.anthropic
       case Threw(e) => Err(e)
       case Returned(response) => ExtractAnthropic(response))
    case OpenAI =>
      (match services.openai
       case Threw(e) => Err(e)
       case Returned(response) => ExtractOpenAI(response))
  }

  // How far a run gets before it stops, after `Runtime.Listed`.

  predicate Chosen(inputs: Inputs, context: Context, services: Services)
  {
    Listed(inputs, context, services) && ChosenProvider(inputs).Ok?
  }

  predicate Described(inputs: Inputs, context: Context, services: Services)
  {
    Chosen(inputs, context, services) && Generation(ChosenProvider(inputs).value, services).Ok?
  }

  predicate Fetched(inputs: Inputs, context: Context, services: Services)
  {
    Described(inputs, context, services) && services.getPull.Returned?
  }

  /** One run: the calls made, in order, and how the run ends. A throw at any
      step skips every later step and is reported once; the write is the
      last call, so a run that fails before it writes nothing. */
  method Run(inputs: Inputs, context: Context, services: Services)
    returns (calls: seq<Call>, outcome: Outcome)
    ensures inputs.githubToken == "" ==> calls == [] && outcome == Failed(MissingTokenMessage)
    ensures inputs.githubToken != "" && context.pullRequest.None? ==>
      calls == [] && outcome == Failed(NotPullRequestMessage)
    ensures Started(inputs, context) ==> |calls| >= 1 && calls[0] == ListFiles(PullOf(context))
    ensures Started(inputs, context) && services.listFiles.Threw? ==>
      |calls| == 1 && outcome == Failed(Report(services.listFiles.error))
    ensures Listed(inputs, context, services) && ChosenProvider(inputs).Err? ==>
      |calls| == 1 && outcome == Failed(NoProviderKeyMessage)
    ensures Chosen(inputs, context, services) ==>
      |calls| >= 2
      && calls[1] == Request(ChosenProvider(inputs).value, inputs, Summarize(services.listFiles.value))
    ensures Chosen(inputs, context, services) && Generation(ChosenProvider(inputs).value, services).Err? ==>
      |calls| == 2 && outcome == Failed(Report(Generation(ChosenProvider(inputs).value, services).error))
    ensures Described(inputs, context, services) ==> |calls| >= 3 && calls[2] == GetPull(PullOf(context))
    ensures Described(inputs, context, services) && services.getPull.Threw? ==>
      |calls| == 3 && outcome == Failed(Report(services.getPull.error))
    ensures Fetched(inputs, context, services) ==>
      var description := Generation(ChosenProvider(inputs).value, services).value;
      var body := Reconcile(BodyText(services.getPull.value.body), description);
      && |calls| == 4
      && calls[3] == UpdatePull(PullOf(context), Some(body))
      && outcome == (if services.update.Returned? then Succeeded(UpdatedMessage)
                     else Failed(Report(services.update.error)))
    ensures UpdateOnlyLast(calls)
    ensures outcome.Succeeded? ==> Fetched(inputs, context, services) && services.update.Returned?
  {
    calls := [];
    var thrown: Option<Thrown> := None;
    label attempt: {
      if inputs.githubToken == "" {
        thrown := Some(Error(MissingTokenMessage));
        break attempt;
      }
      if context.pullRequest.None? {
        thrown := Some(Error(NotPullRequestMessage));
        break attempt;
      }
      var pull := PullOf(context);

      calls := calls + [ListFiles(pull)];
      if services.listFiles.Threw? {
        thrown := Some(services.listFiles.error);
        break attempt;
      }
      var changes := Summarize(services.listFiles.value);

      var description: string;
      if AnthropicRequested(inputs.modelProvider, inputs.anthropicApiKey) {
        calls := calls + [Request(Anthropic, inputs, changes)];
        if services.anthropic.Threw? {
          thrown := Some(services.anthropic.error);
          break attempt;
        }
        var text := ExtractAnthropic(services.anthropic.value);
        if text.Err? {
          thrown := Some(text.error);
          break attempt;
        }
        description := text.value;
      } else if inputs.openaiApiKey != "" {
        calls := calls + [Request(OpenAI, inputs, changes)];
        if services.openai.Threw? {
          thrown := Some(services.openai.error);
          break attempt;
        }
        var text := ExtractOpenAI(services.openai.value);
        if text.Err? {
          thrown := Some(text.error);
          break attempt;
        }
        description := text.value;
      } else {
        thrown := Some(Error(NoProviderKeyMessage));
        break attempt;
      }

      calls := calls + [GetPull(pull)];
      if services.getPull.Threw? {
        thrown := Some(services.getPull.error);
        break attempt;
      }
      var existingBody := BodyText(services.getPull.value.body);
      var updatedBody := Reconcile(existingBody, description);

      calls := calls + [UpdatePull(pull, Some(updatedBody))];
      if services.update.Threw? {
        thrown := Some(services.update.error);
        break attempt;
      }
    }
    outcome := match thrown
      case Some(e) => Failed(Report(e))
      case None => Succeeded(UpdatedMessage);
  }
}
