# ChangeDog release summary — a Dafny model

ChangeDog is a command-line tool. It reads the tags of a GitLab project and
takes the newest `maxReleaseCount + 1` of them. For each pair of adjacent
tags it fetches the commits between them. It collects the Jira issue keys that
the newer tag's message and the commits mention, looks those issues up in Jira,
and formats a section per release. It then posts the joined report to a Slack
channel as "ChangeDog" with the `:dog:` emoji.

This project models the core of that tool and proves properties of the model.
The core consists of:

- the callback-based task type `Async.Task` and its combinators;
- the parallel task group;
- the adjacent-pairs sequence;
- the string helpers;
- the Jira query compiler;
- the REST client's request pipeline and response classification;
- the `GenerateReleaseSummary` action.

Modules, one per file:

| file | module | models |
|---|---|---|
| `results.dfy` | `Results` | `Optional` and `Swift.Result` with `map`, `mapError`, `flatMapError`, `try? get()` |
| `async_task.dfy` | `AsyncTask` | `Async.Task`, `map` and its specialisations, `then`, `justValue`/`justError`, `firstly` |
| `parallel_group.dfy` | `ParallelGroup` | `GroupTaskStatus`, `ParallelTaskGroup`, `Async.forEach` |
| `adjacents.dfy` | `AdjacentPairs` | `AdjacentsSequence` and its iterator |
| `text.dfy` | `Text` | `split`/`joined`, `prependToEachLine`, `maskingMarkdown` |
| `jira_query.dfy` | `JiraQuery` | `Jira.Query` and its `compile()` |
| `rest_client.dfy` | `RestClient` | `RestClient.Error`, `makeRequest`, `requestResult`, `makeTask`, the `request` overloads |
| `release_summary.dfy` | `ReleaseSummary` | `GenerateReleaseSummary` and the GitLab, Jira and Slack records it handles |

How the model is built:

- **Tasks.** A task is modelled by what its block observably does during one
  `complete` call: the sequence of results it hands to its completion, in
  order. "Calls its completion exactly once" (`ExactlyOnce`) is therefore a
  property that can be proved, not an assumption.
- **`Never`.** A task whose error type is `Never` is a task whose every result
  is a success (`NeverFails`).
- **Collaborators.** The GitLab, Jira and Slack clients are assumed to
  answer exactly once. `RestClient.MakeTask` shows this holds for every
  request when the authorisation strategy and the data task each call back
  exactly once. The clients are modelled as
  oracles in a `Services` record. So are the issue-key extractor and the
  textual rendering of an error.
- **"Not consulted".** That a collaborator is not consulted is stated as
  independence. Replacing its oracle leaves the result unchanged.

## Model

| member | source | states |
|---|---|---|
| `Results.MapValue` | Sources/ChangeDog/Tools/AsyncTask/AsyncTask+Map.swift:15 | `Result.map` keeps the case; a success value is transformed, an error is kept |
| `Results.MapFailure` | Sources/ChangeDog/Tools/AsyncTask/AsyncTask+Map.swift:21 | `Result.mapError` keeps the case; an error is transformed, a success value is kept |
| `Results.Recover` | Sources/ChangeDog/Tools/AsyncTask/AsyncTask+Map.swift:27 | `flatMapError { .success(transform($0)) }` always succeeds: with the value kept, or with the transformed error |
| `AsyncTask.CompleteExactlyOnce` | Sources/ChangeDog/Tools/AsyncTask/AsyncTask.swift:2-15 | `complete` runs the stored block; an exactly-once task calls the completion once per `complete`, with its one outcome |
| `AsyncTask.MapComplete` | Sources/ChangeDog/Tools/AsyncTask/AsyncTask+Map.swift:2-10 | completing `map(f)` with `c` is completing the source with `c` after `f`; `map` preserves exactly-once and maps the outcome |
| `AsyncTask.MapFunctor` | Sources/ChangeDog/Tools/AsyncTask/AsyncTask+Map.swift:2-10 | mapping the identity changes nothing; two maps are one map of the composition |
| `AsyncTask.MapSuccess` | Sources/ChangeDog/Tools/AsyncTask/AsyncTask+Map.swift:12-16 | one result per source result; successes transformed, failures passed through unchanged |
| `AsyncTask.MapError` | Sources/ChangeDog/Tools/AsyncTask/AsyncTask+Map.swift:18-22 | one result per source result; failures transformed, successes passed through unchanged |
| `AsyncTask.MapErrorIdentity` | Sources/ChangeDog/Actions/GenerateReleaseSummary.swift:53 | `mapError { $0 }` leaves the task unchanged |
| `AsyncTask.ResolvedOutcome` | Sources/ChangeDog/Tools/AsyncTask/AsyncTask.swift:2-15 | an exactly-once task is determined by its single outcome |
| `AsyncTask.ResolvedMaps` | Sources/ChangeDog/Tools/AsyncTask/AsyncTask+Map.swift:12-22 | mapping a task that answers `r` once answers the mapped `r` once |
| `AsyncTask.ReplaceError` | Sources/ChangeDog/Tools/AsyncTask/AsyncTask+Map.swift:24-28 | the result never fails; successes are kept and a failure `e` becomes the success `f(e)` |
| `AsyncTask.MapToResult` | Sources/ChangeDog/Tools/AsyncTask/AsyncTask+Map.swift:30-34 | the result never fails and carries each original result as its value |
| `AsyncTask.CompleteSuccess` | Sources/ChangeDog/Tools/AsyncTask/AsyncTask+Map.swift:36-45 | the callback is applied to exactly the success values, one call each, in order; for an exactly-once task it is called once on success and never on failure |
| `AsyncTask.CompleteErrorError` | Sources/ChangeDog/Tools/AsyncTask/AsyncTask+Map.swift:47-56 | the callback is applied to exactly the errors, one call each, in order; for a task that never fails it is never called |
| `AsyncTask.WithErrorType` | Sources/ChangeDog/Tools/AsyncTask/AsyncTask+Map.swift:59-67 | on a task that never fails, only the error type changes: the same number of results, the same success values |
| `AsyncTask.Then` | Sources/ChangeDog/Tools/AsyncTask/AsyncTask+Then.swift:2-15 | on success `s` the chained task is `nextTask(s)`; on failure `e` it answers `e` once without building a next task |
| `AsyncTask.ThenConsultsNextOnlyOnSuccess` | Sources/ChangeDog/Tools/AsyncTask/AsyncTask+Then.swift:6-12 | `nextTask` is consulted only at success values: two continuations agreeing there give the same task |
| `AsyncTask.ThenExactlyOnce` | Sources/ChangeDog/Tools/AsyncTask/AsyncTask+Then.swift:5-14 | chaining exactly-once tasks gives an exactly-once task |
| `AsyncTask.ChainAppend` | Sources/ChangeDog/Tools/AsyncTask/AsyncTask+Then.swift:6-12 | each result of the first task is chained independently: chaining distributes over concatenation of result sequences |
| `AsyncTask.ThenRightIdentity` | Sources/ChangeDog/Tools/AsyncTask/AsyncTask+Then.swift:2-15 | continuing with `justValue` changes nothing |
| `AsyncTask.ThenAssociative` | Sources/ChangeDog/Tools/AsyncTask/AsyncTask+Then.swift:2-15 | `then` is associative |
| `AsyncTask.JustValue` | Sources/ChangeDog/Tools/AsyncTask/AsyncTask+Just.swift:2-9 | answers the value exactly once |
| `AsyncTask.JustError` | Sources/ChangeDog/Tools/AsyncTask/AsyncTask+Just.swift:11-18 | answers the error exactly once |
| `AsyncTask.JustThen` | Sources/ChangeDog/Tools/AsyncTask/AsyncTask+Just.swift:2-18 | `justValue(v).then(f)` is `f(v)` (left identity); `justError(e).then(f)` is `justError(e)` |
| `AsyncTask.JustErrorReplaced` | Sources/ChangeDog/Tools/AsyncTask/AsyncTask+Just.swift:11-18 | `justError(e).replaceError(f)` is `justValue(f(e))` |
| `AsyncTask.FirstlyThen` | Sources/ChangeDog/Tools/AsyncTask/AsyncTask+Firstly.swift:2-4 | chaining after `firstly` is chaining after the factory's task |
| `ParallelGroup.AsResult` | Sources/ChangeDog/Tools/AsyncTask/AsyncTask+ForEach.swift:10-19 | nil exactly for `inProgress`; otherwise the stored success or failure |
| `ParallelGroup.Settle` | Sources/ChangeDog/Tools/AsyncTask/AsyncTask+ForEach.swift:32-37 | the status a finished task leaves is settled and reads back as that task's result |
| `ParallelGroup.SettleRoundTrip` | Sources/ChangeDog/Tools/AsyncTask/AsyncTask+ForEach.swift:5-19 | `asResult` inverts settling, and a status reading back as `r` is the settled `r` |
| `ParallelGroup.GroupResults` | Sources/ChangeDog/Tools/AsyncTask/AsyncTask+ForEach.swift:43-45 | one result per task, slot `i` holding task `i`'s outcome |
| `ParallelGroup.CompleteGroup` | Sources/ChangeDog/Tools/AsyncTask/AsyncTask+ForEach.swift:25-47 | whatever order the tasks finish in, the results are in task order, slot `i` holding task `i`'s outcome |
| `ParallelGroup.GroupTask` | Sources/ChangeDog/Tools/AsyncTask/AsyncTask+ForEach.swift:49-55 | never fails; answers exactly once iff every task does, with the results in task order |
| `ParallelGroup.ForEach` | Sources/ChangeDog/Tools/AsyncTask/AsyncTask+ForEach.swift:58-63 | never fails; with exactly-once tasks answers once with one result per item, in item order |
| `AdjacentPairs.Adjacents` | Sources/ChangeDog/Tools/Helpers/Sequence+Adjacents.swift:40-44 | `max(n - 1, 0)` pairs, pair `i` being `(s[i], s[i + 1])` |
| `AdjacentPairs.AdjacentsChain` | Sources/ChangeDog/Tools/Helpers/Sequence+Adjacents.swift:24-25 | consecutive pairs overlap: the second half of one is the first half of the next |
| `AdjacentPairs.MakeIterator` | Sources/ChangeDog/Tools/Helpers/Sequence+Adjacents.swift:11-14 | the first element, if any, is read into `previousElement` |
| `AdjacentPairs.Next` | Sources/ChangeDog/Tools/Helpers/Sequence+Adjacents.swift:16-26 | nil exactly when there is no previous or no further element, with the state kept; otherwise the pair (previous, current) and current becomes previous |
| `AdjacentPairs.NextStaysExhausted` | Sources/ChangeDog/Tools/Helpers/Sequence+Adjacents.swift:16-26 | once `next()` answers nil it keeps answering nil |
| `AdjacentPairs.AdvanceState` | Sources/ChangeDog/Tools/Helpers/Sequence+Adjacents.swift:5-27 | after `k` calls `previousElement` is `s[k]`; call `k + 1` returns pair `k`, or nil at the end |
| `AdjacentPairs.CollectPairs` | Sources/ChangeDog/Tools/Helpers/Sequence+Adjacents.swift:1-38 | draining the iterator yields exactly the adjacent pairs, in order |
| `Text.Split` | Sources/ChangeDog/Tools/Helpers/String+Helpers.swift:3 | every piece is non-empty and free of the separator |
| `Text.SplitKeepsContent` | Sources/ChangeDog/Tools/Helpers/String+Helpers.swift:3 | the pieces concatenated are the input with every separator removed |
| `Text.SplitAround` | Sources/ChangeDog/Tools/Helpers/String+Helpers.swift:3 | what lies on either side of one separator splits independently |
| `Text.SplitJoin` | Sources/ChangeDog/Tools/Helpers/String+Helpers.swift:3-5 | joining non-empty, separator-free pieces and splitting again gives the pieces back |
| `Text.SplitJoinTexts` | Sources/ChangeDog/Tools/Helpers/String+Helpers.swift:3-5 | splitting a join of arbitrary texts splits each text in order |
| `Text.PrependToEachLine` | Sources/ChangeDog/Tools/Helpers/String+Prepend.swift:2-6 | the empty string stays empty |
| `Text.PrependToEachLineLines` | Sources/ChangeDog/Tools/Helpers/String+Helpers.swift:2-6 | for a prefix without newlines the result's lines are the input's non-empty lines, each behind the prefix, in order |
| `Text.ReplaceChar` | Sources/ChangeDog/Tools/Helpers/String+Helpers.swift:9 | a one-character replacement keeps the length, leaves no occurrence of the replaced character (when it differs from its substitute), puts the substitute exactly where either character stood, and keeps every other character in place |
| `Text.MaskChar` | Sources/ChangeDog/Tools/Helpers/String+Helpers.swift:9-13 | the substitute is never markup, and non-markup characters are kept |
| `Text.MaskingMarkdownSubstitutes` | Sources/ChangeDog/Tools/Helpers/String+Helpers.swift:8-14 | the five replacements are a per-character substitution: length kept, no markup left, other characters unchanged, idempotent |
| `JiraQuery.RawValuesDistinct` | Sources/ChangeDog/Services/Jira/JiraQuery.swift:15-24 | distinct operators (and distinct keywords) compile to distinct strings |
| `JiraQuery.CompileValue` | Sources/ChangeDog/Services/Jira/JiraQuery.swift:26-40 | a single value is verbatim; a list is parenthesised, the empty list being `()` |
| `JiraQuery.CompileRule` | Sources/ChangeDog/Services/Jira/JiraQuery.swift:47-49 | the rule's text reads back as its field, its operator and its compiled value |
| `JiraQuery.Compile` | Sources/ChangeDog/Services/Jira/JiraQuery.swift:71-73 | the query's text reads back as its rule's field, operator and compiled value |
| `JiraQuery.IssuesWithIds` | Sources/ChangeDog/Services/Jira/JiraQuery.swift:67-69 | the rule is `issue in` over the keys' values, in order |
| `JiraQuery.ValueListRoundTrip` | Sources/ChangeDog/Services/Jira/JiraQuery.swift:34-37 | a compiled list of comma-free values reads back as the same values in order |
| `JiraQuery.IssuesWithIdsCompiles` | Sources/ChangeDog/Services/Jira/JiraQuery.swift:67-73 | for keys without commas, the JQL is `issue in ` followed by a list reading back as the keys, in order |
| `RestClient.TruncateErrorBody` | Sources/ChangeDog/Services/RestClient/RestClient.swift:199-203 | a body over 250 characters becomes its first 250 followed by `...`; a shorter one is kept |
| `RestClient.RequestResult` | Sources/ChangeDog/Services/RestClient/RestClient.swift:190-206 | no HTTP response is `wrongResponse`; success iff the status is 100 to 299; any other status is `httpFailure` carrying that code and the truncated UTF-8 body, if any |
| `RestClient.Exchange` | Sources/ChangeDog/Services/RestClient/RestClient.swift:168-182 | a classification failure is the result, before decoding; missing data is `noData` with the transport error; otherwise a decoded value is the success and a decoding failure is `decodingError`; the steps taken are recorded |
| `RestClient.MakeRequest` | Sources/ChangeDog/Services/RestClient/RestClient.swift:133-188 | the steps run in fixed order: a URL that does not compose is `failedToComposeUrl`, a failed encoding `encodingError`, a failed authorisation `authError`, each stopping the pipeline; once all three succeed the result is the exchange's, so the network is reached only after them |
| `RestClient.AuthFailureSkipsNetwork` | Sources/ChangeDog/Services/RestClient/RestClient.swift:165-187 | a failed authorisation is `authError` whatever the network would have answered |
| `RestClient.MakeTask` | Sources/ChangeDog/Services/RestClient/RestClient.swift:124-131 | a request task calls its completion exactly once, assuming its collaborators each call back once |
| `RestClient.RequestVoid` | Sources/ChangeDog/Services/RestClient/RestClient.swift:54-87 | the body-less overloads succeed iff the request does, and keep its error |
| `ReleaseSummary.DiffKeys` | Sources/ChangeDog/Actions/GenerateReleaseSummary.swift:115-121 | a key is collected iff some commit's title or message mentions it |
| `ReleaseSummary.Dedup` | Sources/ChangeDog/Actions/GenerateReleaseSummary.swift:122 | `Array(Set(...))`: no duplicates and the same elements |
| `ReleaseSummary.ExtractIssues` | Sources/ChangeDog/Actions/GenerateReleaseSummary.swift:113-123 | each key mentioned by the tag message or by any commit, exactly once; failed extractions contribute nothing |
| `ReleaseSummary.AddTab` | Sources/ChangeDog/Actions/GenerateReleaseSummary.swift:155-160 | the lines of the result are the input's non-empty lines, each behind a tab |
| `ReleaseSummary.FormatIssuesReport` | Sources/ChangeDog/Actions/GenerateReleaseSummary.swift:125-147 | the section opens with the `Tag: <name>` line |
| `ReleaseSummary.IssueEntriesSplit` | Sources/ChangeDog/Actions/GenerateReleaseSummary.swift:139-143 | the lines of the joined entries are every issue's tabbed lines, in issue order |
| `ReleaseSummary.TitledLines` | Sources/ChangeDog/Actions/GenerateReleaseSummary.swift:138 | a blank line and a title line contribute just the title line |
| `ReleaseSummary.MentionedBlockLines` | Sources/ChangeDog/Actions/GenerateReleaseSummary.swift:138-143 | the issues block is the title line followed by the issues' lines |
| `ReleaseSummary.EmptyIssuesLines` | Sources/ChangeDog/Actions/GenerateReleaseSummary.swift:128-134 | without issues: tag line, then the message lines or the placeholder |
| `ReleaseSummary.SomeIssuesLines` | Sources/ChangeDog/Actions/GenerateReleaseSummary.swift:135-144 | with issues: tag line, message lines if any, title, issue lines |
| `ReleaseSummary.IssuesReportLines` | Sources/ChangeDog/Actions/GenerateReleaseSummary.swift:125-147 | the section's lines: tag line, tabbed message lines, then the placeholder (no issues, no message), nothing (no issues), or the title and every issue's tabbed lines in order |
| `ReleaseSummary.FormatFailureReport` | Sources/ChangeDog/Actions/GenerateReleaseSummary.swift:149-153 | the failure section opens with the `Tag: <name>` line |
| `ReleaseSummary.FailureReportLines` | Sources/ChangeDog/Actions/GenerateReleaseSummary.swift:149-153 | the failure section's lines: tag line, then the tabbed lines of the notice with the error's description |
| `ReleaseSummary.IssuesInReleaseDelivers` | Sources/ChangeDog/Actions/GenerateReleaseSummary.swift:78-111 | the per-pair task never fails and answers exactly once with the reference section; diff and search failures become failure sections |
| `ReleaseSummary.NoKeysNoSearch` | Sources/ChangeDog/Actions/GenerateReleaseSummary.swift:88-90 | with no keys Jira is not consulted and the section is the empty-issues one |
| `ReleaseSummary.DiffFailureSection` | Sources/ChangeDog/Actions/GenerateReleaseSummary.swift:82-84 | a failed diff gives `failedToGetDiff`'s section, whatever the extractor and Jira would answer |
| `ReleaseSummary.ReleasePairsShape` | Sources/ChangeDog/Actions/GenerateReleaseSummary.swift:60 | `min(n, maxReleaseCount + 1) - 1` pairs (none if that is negative), pair `i` being tags `i` and `i + 1` |
| `ReleaseSummary.Successes` | Sources/ChangeDog/Actions/GenerateReleaseSummary.swift:69-71 | when every result succeeds, the values in order |
| `ReleaseSummary.Releases` | Sources/ChangeDog/Actions/GenerateReleaseSummary.swift:57-76 | the report task never fails |
| `ReleaseSummary.SectionsDeliver` | Sources/ChangeDog/Actions/GenerateReleaseSummary.swift:61-64 | the group answers once, slot `i` holding pair `i`'s section |
| `ReleaseSummary.ReleasesDelivers` | Sources/ChangeDog/Actions/GenerateReleaseSummary.swift:57-76 | the report is "Нет релизов" without pairs, else the pairs' sections joined by a blank line, newest first |
| `ReleaseSummary.FetchTagsOutcome` | Sources/ChangeDog/Actions/GenerateReleaseSummary.swift:35-38 | the tags, or `failedToGetTags` |
| `ReleaseSummary.BuildReportDelivers` | Sources/ChangeDog/Actions/GenerateReleaseSummary.swift:39-41 | the report stage answers the reference report once |
| `ReleaseSummary.SendReportOutcome` | Sources/ChangeDog/Actions/GenerateReleaseSummary.swift:42-52 | the send stage is `()` or `failedToSendReport` |
| `ReleaseSummary.MainTaskOutcome` | Sources/ChangeDog/Actions/GenerateReleaseSummary.swift:33-54 | a tags failure ends the run with `failedToGetTags` and sends nothing; otherwise exactly one message, from "ChangeDog" with ":dog:" to the channel, carries the reference report, and a send failure is `failedToSendReport` |

`prependToEachLine` is defined identically in `String+Helpers.swift` and
`String+Prepend.swift`; `Text.PrependToEachLine` models both.

## Notes on the code

- The action does not fetch the project's metadata.
- The tags are not filtered by date.
- The report has no header. A release without issues still gets its section.
- `Jira.IssueKey.init(value:)` accepts any string
  (`Sources/ChangeDog/Services/Jira/JiraIssueKey.swift`, lines 11-13).

## Left out

- The threads of the parallel group are not modelled. `ParallelGroup.CompleteGroup` models one completion order, taken as a parameter. The unsynchronised writes to `statuses` from concurrent completions are outside the model, as are `DispatchGroup` and the main queue.
- `Async.Task.wait` (`AsyncTask+Wait.swift`) is left out: it blocks a thread on a semaphore.
- The HTTP transport (`URLSession`), URL building (`URLComponents`), JSON coding (`CodingStrategy.swift`), authorisation (`AuthStrategy.swift`) and UTF-8 decoding are oracles. Their answers are fields of `RestClient.Environment`.
- The GitLab, Jira and Slack clients are left out beyond the answers they give, which are fields of `ReleaseSummary.Services`. So are their URL construction and the decoding of their records (for example the nested `fields` of `JiraIssue.swift`).
- `Jira.IssueKey.extract(from:)` is not part of this model. It is an oracle, and a failed extraction contributes no keys.
- The textual rendering of an error (`"\(error)"`) is an oracle.
- The command line, `Configuration.swift`, `ChangeDog.swift`, `Package.swift` and the Homebrew formula are left out.
- `Jira.Client.searchIssues` wraps a failing `compile()` as `wrongRequest`. No `compile()` in the source throws, so the model's compiler is total and that path does not exist.
- `RestClient.MakeRequest`: `networkError` and `wrongRequest` are never produced by `makeRequest`. A transport error without a response becomes `wrongResponse`, and with a response it surfaces only inside `noData`. The contract states this as a property rather than treating it as an error.
- `Async.firstly` calls its factory immediately. The model's `Firstly` is the factory's task, so there is no separate "eagerness" to prove.
- `Async.Task.init` only stores its block. In the model a task is its block's behaviour, so there is nothing further to state.
- `Text.Split`: strings are sequences of Unicode scalars, whereas Swift's `String` counts and splits extended grapheme clusters. The two agree only for text in which every `\n` is a grapheme cluster of its own. `"\r\n"` is one Swift `Character`, so `split(separator: "\n")` leaves `"a\r\nb"` whole where the model splits it in two; the same holds for any cluster that contains a `\n`. Text with CRLF line ends is outside what `Text.Split`, `Text.Lines` and `Text.PrependToEachLine` promise.
- `RestClient.TruncateErrorBody`: the limit of 250 counts Unicode scalars, whereas Swift's `count` counts grapheme clusters (so `"\r\n"` counts as two in the model and one in Swift).
- `Text.ReplaceChar`: `replacingOccurrences(of:with:)` with default options matches whole Swift `Character`s. A markup character that begins a larger cluster, such as `"*\u{0301}"` (an asterisk followed by a combining acute accent), is left in place by Swift, whereas the model replaces it. The contract holds at the level of Unicode scalars only.
- `Text.MaskingMarkdownSubstitutes`: for the same reason, "no markup left" and "a per-character substitution" hold for scalars only. Swift leaves the `*` of `"*\u{0301}"` in place, so text with a markup character followed by a combining mark is outside the promise.
- `ReleaseSummary.Dedup`: `Array(Set(...))` has an unspecified (hash) order. The contract promises only the set of keys and no duplicates, and the model fixes one order.
- `ReleaseSummary.Window`: `maxReleaseCount + 1` traps on overflow when `maxReleaseCount` is `Int.max`, and `prefix` traps on a negative length. The model requires `maxReleaseCount >= -1` and uses unbounded integers.
- `AsyncTask.CompleteExactlyOnce`: in the model `complete` is a function of the task, so that two `complete` calls run the block twice (nothing memoised) is not a statement the model can make.
- `RestClient.MakeTask`: exactly-once holds given that `authStrategy.decorateRequest` (`RestClient.swift`, line 165) and the data task (line 168) each call back exactly once. The model gives each one answer in `Environment`. The authorisation strategies the program uses are not part of this model.
- `ParallelGroup.GroupTask`: when every task answers exactly once, the model agrees with the source. When some task answers more than once, the model hands over nothing. The source instead leaves the dispatch group once per answer, so `notify` can fire before every task has finished and pass a partial list (the `assert` at `AsyncTask+ForEach.swift`, line 44, is not evaluated in optimised builds), and an extra `leave()` traps. The model does not describe that behaviour.
