# pr-summarizer, modelled in Dafny

pr-summarizer is a GitHub Action. When a pull request event fires, it
lists the pull request's changed files and reduces them to a change
summary. It then asks a language model (Anthropic or OpenAI) for a
description, reads the pull request, and writes a new body. The
repository ships the same `run()` three times:

- `src/index.ts` and its compiled output `lib/index.js` follow the
  **reconcile** policy. The generated text goes under a section marker
  (`\n\n## 🤖 PR Summarizer`) and is merged into whatever body exists.
- `src/index.js` is an older variant with the **write-once** policy. It
  writes the bare description only into an empty body and otherwise
  skips the write.

The model keeps the two policies apart. The decisions made between the
network calls are pure functions. Each `run()` is an imperative method
that records the calls it makes in a trace and ends with an outcome.

| file | module | what it holds |
|---|---|---|
| `wrappers.dfy` | `Wrappers` | `Option`, `Result` |
| `js.dfy` | `Js` | thrown values, the TypeError message for a read from `undefined` |
| `text.dfy` | `Text` | literal first-substring search and replace-first (the marker regex) |
| `section.dfy` | `Section` | marker, header, `pr.body \|\| ''`, `Reconcile` and its lemmas |
| `changes.dfy` | `Changes` | file listing entries and the change summary projection |
| `providers.dfy` | `Providers` | provider choice, default models, reply shapes and text extraction (both variants) |
| `runtime.dfy` | `Runtime` | inputs, event context, service replies, the call trace, the outcome |
| `reconcile_action.dfy` | `ReconcileAction` | `run()` of `src/index.ts` / `lib/index.js` |
| `write_once_action.dfy` | `WriteOnceAction` | `run()` of `src/index.js` |

The marker constant is the one at `lib/index.js:117,122`. The text of
`src/index.ts:96,103` spells the emoji as the four characters `ðŸ¤–`
(U+00F0 U+0178 U+00A4 U+2013), which are the emoji's UTF-8 bytes read as
Windows-1252. Read literally, that file searches for a different marker.
Apart from `Section.Title`, the single `ReconcileAction` model serves both
`src/index.ts` and `lib/index.js` (see "## Left out"). The table cites the
TypeScript lines; the compiled lines are `lib/index.js:43-142`.

## Where the "replace the section" reading and the code differ

The comment at `src/index.ts:102` ("Check if there's already an
AI-generated section") suggests that a re-run replaces the generated
section. The model follows the code instead:

- **Re-runs accumulate.** The code does not replace the old generated
  section. It replaces the first marker with the header, which adds a
  blank line after the old marker, and it appends the new description at
  the very end. All earlier generated text stays, and reconciliation is
  never idempotent (`Section.ReconcileAccumulates`,
  `Section.ReconcileTwiceOnFreshBody`). The marker is found anywhere as a
  plain substring, with no line anchoring, and there is no scan for a
  section boundary.
- **One run can leave two markers.** The description is appended without
  being searched. If it starts with the section's title, or contains the
  marker, the body holds two markers after the very first run
  (`Section.FirstRunCanLeaveTwoMarkers`).
- **An empty Anthropic content list is not an error.** Only a missing
  `content` fails. An empty list yields the empty description
  (`Providers.ExtractAnthropic`).

## Model

| member | source | states |
|---|---|---|
| `Text.IndexOf` | src/index.ts:103-104 | The result is the least index where the marker literal occurs; it is absent exactly when the literal occurs nowhere (`RegExp.test` on a literal pattern). |
| `Text.ReplaceFirst` | src/index.ts:105 | Only the first occurrence is replaced and the replacement goes in literally; a text without the pattern comes back unchanged. |
| `Section.BodyText` | src/index.ts:100 | A null body becomes the empty text; any other body is kept as it is. |
| `Section.Reconcile` | src/index.ts:95-106 | The new body always contains the marker and ends with the description. It grows by 2 plus the description's length when a marker was present, and by the header's length plus the description's length otherwise. |
| `Section.ReconcileAppendsWhenAbsent` | src/index.ts:96-106 | With no marker (an empty body included), the result is body + header + description, so the old body is a prefix and the header follows it. |
| `Section.ReconcileInsertsAfterMarker` | src/index.ts:103-105 | With the first marker at i, the result is `body[..i+|M|] + "\n\n" + body[i+|M|..] + description`: the text before and after the marker is kept verbatim, and the length grows by exactly 2 + the description's length. |
| `Section.NoMarkerAcrossJoin` | lib/index.js:117-125 | The appended header cannot form an earlier marker together with the end of a marker-free body, because no proper suffix of the marker is also a prefix of it. |
| `Section.KeepsExistingMarker` | lib/index.js:122-124 | When the body already has a marker, the result's first marker is at the same index. |
| `Section.FirstMarkerAfterBody` | lib/index.js:118-125 | When the body has no marker, the result's first marker starts right after the old body. |
| `Section.ReconcileKeepsSectionStart` | src/index.ts:103-106 | Reconciling never moves where the generated section starts. |
| `Section.FirstRunLayout` | src/index.ts:103-106 | The generated description lies after the end of the section's first marker. |
| `Section.RerunKeepsTail` | src/index.ts:103-105 | A rerun on a body whose description follows its first marker keeps that description, and the new one follows it. |
| `Section.ReconcileAccumulates` | src/index.ts:103-106 | For every body, two runs end with first + second description, the second run adds exactly 2 + \|second\| characters, and the second result never equals the first. |
| `Section.ReconcileTwiceOnFreshBody` | src/index.ts:103-106 | Starting from a marker-free body, two runs give body + header + a blank line + first + second. |
| `Section.ReconcileEmptyBody` | lib/index.js:118-125 | A null or empty body yields exactly the header followed by the description. |
| `Section.FirstRunCanLeaveTwoMarkers` | src/index.ts:104-106 | The description is appended without being searched: on an empty body, a description that starts with the title yields a marker at index 0 and another at index \|Marker\|, so one run can already leave two generated-section markers. |
| `Changes.Summarize` | src/index.ts:44-50 | The summary has the listing's length and order, and entry i copies filename, status, additions, deletions and patch of file i unchanged. |
| `Changes.SummarizeAppend` | src/index.js:32-38 | Summarising a concatenated listing gives the two summaries concatenated, in order. |
| `Changes.SummaryIgnoresOtherFields` | lib/index.js:68-74 | The summary depends only on the five copied fields. Listings that differ only in other fields (sha, URLs, counts) have the same summary. |
| `Providers.SelectProvider` | src/index.ts:54-86 | Anthropic iff the requested provider is "anthropic" and its key is non-empty. Otherwise OpenAI iff its key is non-empty. Otherwise the error "Either OpenAI or Anthropic API key must be provided". |
| `Providers.SelectProviderWriteOnce` | src/index.js:42-54 | Anthropic iff requested and keyed. Otherwise OpenAI, with no key check. |
| `Providers.SelectionPoliciesAgree` | src/index.js:42-54 | Wherever the reconcile variant picks a provider, the write-once variant picks the same one. Where the reconcile variant reports a missing key, the write-once variant calls OpenAI. |
| `Providers.ModelOrDefault` | src/index.ts:57 | The model sent is never empty. It is the input when that is set, otherwise 'claude-3-sonnet-20240229' or 'gpt-4' for the chosen provider. |
| `Providers.JoinTexts` | src/index.ts:69 | An empty block list joins to the empty text. |
| `Providers.JoinTextsAppend` | src/index.ts:69 | The join keeps block order: joining consecutive runs of blocks concatenates their texts. |
| `Providers.JoinTextsAt` | lib/index.js:91 | Each block's text appears in the joined text at the offset given by the blocks before it. |
| `Providers.ExtractAnthropic` | src/index.ts:66-69 | Fails, with "Unexpected response format from Anthropic API", exactly when `content` is missing. Otherwise the text is the in-order join of the block texts, and an empty list gives "". |
| `Providers.FirstBlockText` | src/index.js:52 | Succeeds exactly when `content` is present and non-empty, and then yields the first block's text only (undefined for a non-text block). A missing list throws the TypeError for reading '0', and an empty list throws the one for reading 'text'. |
| `Providers.AnthropicExtractionsAgree` | src/index.js:52 | When the write-once variant reads a text, it is a prefix of the reconcile variant's text. The two are equal iff the later blocks contribute no text. |
| `Providers.ExtractOpenAI` | src/index.ts:80-83 | Succeeds iff choices, the first choice, its message and a non-empty content all exist. Then the text is that content. Otherwise it fails with "Unexpected response format from OpenAI API". |
| `Providers.FirstChoiceText` | src/index.js:62 | Succeeds iff choices, the first choice and its message exist, and then yields the content as is, null included. A missing link throws an `Error` (a TypeError); missing `choices` throws the one for reading '0'. |
| `Providers.OpenAIExtractionsAgree` | src/index.js:62 | The reconcile variant accepts exactly the replies where the write-once variant reads a non-empty content, and both take the same text. |
| `ReconcileAction.Run` | src/index.ts:14-123 | An empty token fails first. A non-PR event fails with "This action can only be run on pull request events" and makes no call. After listing, a missing key fails with no provider call. The calls come in a fixed order and the update is always the last one. Any throw is reported once (an Error's message, else "An unexpected error occurred") and skips every later call, so no write follows a failure. A run that gets through writes `Reconcile(pr.body \|\| '', description)` and logs 'Successfully updated PR description'. |
| `WriteOnceAction.Run` | src/index.js:6-88 | A non-PR event fails with the TypeError from reading `number` and makes no call. The provider call is Anthropic (no system prompt) or otherwise OpenAI with whatever key. The update is made only when the body is null or empty, and it writes the bare description. Otherwise there are three calls and 'PR already has a description, skipping update'. Any throw is reported through `error.message` with no write after it. |

## Left out

- Network calls (file listing, pull request read and update, both model APIs) are not executed. Each is a fixed reply (`Runtime.Services`) that does not depend on the request, and the call and its arguments are recorded in the trace.
- The prompt text (`JSON.stringify(changes, null, 2)` inside a template) is not built. The change list it is a function of stands for it in the call.
- `core.getInput`, `core.info`, `core.setFailed` and `github.context` are parameters (`Runtime.Inputs`, `Runtime.Context`) and the result (`Runtime.Outcome`). The process exit code is not modelled. `Js.Thrown.NonError` stands for a thrown value that is not an `Error` and has no `message` property. For such a value the write-once variant calls `setFailed(undefined)`, and the model assumes that this reports the empty message. A thrown object that is not an `Error` but has a `message` property is not modelled. Neither is a thrown `null` or `undefined`, where reading `error.message` at `src/index.js:86` itself throws and `setFailed` is never called.
- `github.getOctokit` is not modelled. With a non-blank token it does not fail. A token made only of whitespace passes the `required` check, and then `getOctokit` throws 'Parameter token or opts.auth is required'. The model folds that case into the missing-token case: `githubToken` stands for the trimmed input, and an empty one reports `MissingTokenMessage`.
- Section.Title: uses the emoji as the compiled `lib/index.js:117,122` spells it. Read literally, `src/index.ts:96,103` would use the four Windows-1252 characters `\u00F0\u0178\u00A4\u2013` in its place. No lemma depends on which characters the title holds; the proofs use only that it contains no line break (`Section.NoMarkerAcrossJoin`).
- Strings are sequences of Unicode scalar values, while JavaScript strings are UTF-16 code units. The robot emoji counts as one element, not two, so absolute lengths and indices differ by the number of astral characters, and strings with lone surrogates cannot be represented. A literal substring search finds the same occurrences either way.
- In the write-once variant, a null and an undefined description are the same value (`None`), sent as the update's body. How the hosting API treats such a body is outside the model.
- Other shapes of service replies that JavaScript would accept (`content` that is not an array, a block whose `text` is not a string, a non-array file listing) are not representable.
- The module interop helpers at `lib/index.js:1-42` are compiler output, and `async`/`await` is not modelled: each run is strictly sequential.
- No section boundary scan and no "exactly one managed section" guarantee are modelled, because the code has neither. For example, a description that starts with the section's title leaves two markers on the very first run (`Section.FirstRunCanLeaveTwoMarkers`).
