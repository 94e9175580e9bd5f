/** The action's surroundings as plain values: its inputs, the event
    context, the replies of the services it calls, the calls it makes and
    the way the run ends. */
module Runtime {
  import opened Wrappers
  import opened Js
  import opened Changes
  import opened Providers

  /** The action inputs; an unset input reads as the empty string. */
  datatype Inputs = Inputs(
    githubToken: string,
    openaiApiKey: string,
    anthropicApiKey: string,
    modelProvider: string,
    model: string)

  /** The event context: the pull request number when the event carries a
      pull request, and the repository. */
  datatype Context = Context(pullRequest: Option<nat>, owner: string, repo: string)

  datatype PullRef = PullRef(owner: string, repo: string, number: nat)

  function PullOf(context: Context): PullRef
    requires context.pullRequest.Some?
  {
    PullRef(context.owner, context.repo, context.pullRequest.value)
  }

  /** The pull request as read back from the hosting API; its body may be null. */
  datatype PullRequest = PullRequest(body: Option<string>)

  /** What a service call does: return a value or throw. */
  datatype Reply<T> = Returned(value: T) | Threw(error: Thrown)

  /** The replies the services give in one run, one per kind of call. */
  datatype Services = Services(
    listFiles: Reply<seq<ListedFile>>,
    anthropic: Reply<AnthropicResponse>,
    openai: Reply<OpenAIResponse>,
    getPull: Reply<PullRequest>,
    update: Reply<()>)

  /** A call to a service, with the arguments the action passes. The prompt
      text is a function of `changes`, so the change list stands for it. */
  datatype Call =
    | ListFiles(pull: PullRef)
    | CreateMessage(apiKey: string, model: string, system: Option<string>, maxTokens: nat,
                    changes: seq<FileChange>)
    | CreateChatCompletion(apiKey: string, model: string, changes: seq<FileChange>)
    | GetPull(pull: PullRef)
    | UpdatePull(pull: PullRef, body: Option<string>)   // None: a null or undefined body

  /** How the run ends: an informational line, or the message given to
      `core.setFailed`. */
  datatype Outcome = Succeeded(info: string) | Failed(message: string)

  /** What `core.getInput('github-token', { required: true })` throws when
      the input is empty. */
  const MissingTokenMessage: string := "Input required and not supplied: github-token"

  const UpdatedMessage: string := "Successfully updated PR description"

  const MaxTokens: nat := 1000

  /** No call except the last one writes the pull request. */
  predicate UpdateOnlyLast(calls: seq<Call>)
  {
    forall k :: 0 <= k < |calls| - 1 ==> !calls[k].UpdatePull?
  }

  // How far a run gets before it stops; both variants share the first steps.

  /** The token is set and the event carries a pull request. */
  predicate Started(inputs: Inputs, context: Context)
  {
    inputs.githubToken != "" && context.pullRequest.Some?
  }

  /** The run got past listing the pull request's files. */
  predicate Listed(inputs: Inputs, context: Context, services: Services)
  {
    Started(inputs, context) && services.listFiles.Returned?
  }
}
