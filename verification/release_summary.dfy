/**
 `Actions.GenerateReleaseSummary`: fetch the tags, compare each adjacent pair
 of the newest `maxReleaseCount + 1` tags, collect the issue keys the tag
 message and the commits mention, look the issues up, format one section per
 pair (a failed lookup becomes that pair's section) and send the joined
 report to the chat channel.

 The GitLab, Jira and Slack clients, the issue-key extractor and the textual
 rendering of an error are oracles collected in `Services`; each client call
 is assumed to answer exactly once, as `RestClient.MakeTask` does when its
 own collaborators call back once. The pipeline itself is
 built from the task combinators exactly as the source composes them, and
 each stage is proved equal to a direct reference definition.
 */
module ReleaseSummary {
  import opened Results
  import opened AsyncTask
  import opened ParallelGroup
  import opened AdjacentPairs
  import opened Text
  import opened JiraQuery
  import opened RestClient

  // ---------------------------------------------------------------------------
  // Entities
  // ---------------------------------------------------------------------------

  /** `GitLab.Commit`. */
  datatype Commit = Commit(id: string, title: string, message: string)

  /** `GitLab.Tag`; `message` is the annotation, if any. */
  datatype Tag = Tag(name: string, message: Option<string>, commit: Commit)

  /** `GitLab.Diff`: the commits between two tags. */
  datatype Diff = Diff(commits: seq<Commit>)

  /** `Jira.Issue`. */
  datatype Issue = Issue(key: IssueKey, summary: string, status: string)

  /** `Jira.SearchResults`. */
  datatype SearchResults = SearchResults(issues: seq<Issue>)

  /** `Slack.Message`. */
  datatype Message = Message(channel: Option<string>, username: string, iconUrl: Option<string>, iconEmoji: Option<string>, text: string)

  /** `GenerateReleaseSummary.Error`: a client error tagged with its phase. */
  datatype PipelineError =
    | FailedToGetTags(tagsError: RestError)
    | FailedToGetDiff(diffError: RestError)
    | FailedToFindIssues(searchError: RestError)
    | FailedToSendReport(sendError: RestError)

  /** What the collaborators answer. */
  datatype Services = Services(
    tags: Result<seq<Tag>, RestError>,                   // gitlabClient.tags()
    diff: (Tag, Tag) -> Result<Diff, RestError>,         // gitlabClient.diff(from:to:)
    search: Query -> Result<SearchResults, RestError>,   // jiraClient.searchIssues(query:)
    send: Message -> Result<(), RestError>,              // slackClient.send(message:)
    extract: string -> Result<seq<IssueKey>, Cause>,     // Jira.IssueKey.extract(from:)
    describe: PipelineError -> string)                   // "\(error)"

  const Username := "ChangeDog"
  const IconEmoji := ":dog:"
  const NoReleases := "Нет релизов"
  const NoIssuesNoMessage := "\tНет тасок и описания"
  const MentionedIssuesTitle := "\tУпомянутые задачи:"
  const FailedToGetIssues := "Не удалось получить задачи: "
  const SectionSeparator := "\n\n"

  // ---------------------------------------------------------------------------
  // extractIssues
  // ---------------------------------------------------------------------------

  /** `(try? extract(text)) ?? []`: a failed extraction contributes nothing. */
  function KeysIn(text: string, extract: string -> Result<seq<IssueKey>, Cause>): seq<IssueKey>
  {
    match extract(text)
    case Success(keys) => keys
    case Failure(_) => []
  }

  function CommitKeys(c: Commit, extract: string -> Result<seq<IssueKey>, Cause>): seq<IssueKey>
  {
    KeysIn(c.title, extract) + KeysIn(c.message, extract)
  }

  /** `tag.message ?? ""`. */
  function MessageText(tag: Tag): string
  {
    match tag.message
    case Some(m) => m
    case None => ""
  }

  /** `diff.commits.flatMap { title keys + message keys }`. */
  function DiffKeys(commits: seq<Commit>, extract: string -> Result<seq<IssueKey>, Cause>): (keys: seq<IssueKey>)
    ensures forall k :: k in keys <==> exists i :: 0 <= i < |commits| && k in CommitKeys(commits[i], extract)
  {
    if |commits| == 0 then []
    else
      var rest := DiffKeys(commits[1..], extract);
      assert forall k :: k in rest <==> exists i :: 1 <= i < |commits| && k in CommitKeys(commits[i], extract) by {
        forall k | k in rest
          ensures exists i :: 1 <= i < |commits| && k in CommitKeys(commits[i], extract)
        {
          var j :| 0 <= j < |commits[1..]| && k in CommitKeys(commits[1..][j], extract);
          assert commits[1..][j] == commits[j + 1];
        }
        forall k, i | 1 <= i < |commits| && k in CommitKeys(commits[i], extract)
          ensures k in rest
        {
          assert commits[i] == commits[1..][i - 1];
        }
      }
      CommitKeys(commits[0], extract) + rest
  }

  predicate NoDuplicates<T(==)>(s: seq<T>)
  {
    forall i, j :: 0 <= i < j < |s| ==> s[i] != s[j]
  }

  /** `Array(Set(s))`: each element once. The order of a Swift set is
      unspecified; this keeps each element's last occurrence. */
  function Dedup(s: seq<IssueKey>): (r: seq<IssueKey>)
    ensures NoDuplicates(r)
    ensures forall x :: x in r <==> x in s
  {
    if |s| == 0 then []
    else if s[0] in s[1..] then Dedup(s[1..])
    else [s[0]] + Dedup(s[1..])
  }

  /** `extractIssues(tag:from:)`: each key mentioned by the tag message (a
      missing message read as empty) or by any commit's title or message,
      exactly once. */
  function ExtractIssues(tag: Tag, diff: Diff, extract: string -> Result<seq<IssueKey>, Cause>): (keys: seq<IssueKey>)
    ensures NoDuplicates(keys)
    ensures forall k :: k in keys <==>
      || k in KeysIn(MessageText(tag), extract)
      || exists i :: 0 <= i < |diff.commits| && k in CommitKeys(diff.commits[i], extract)
  {
    Dedup(DiffKeys(diff.commits, extract) + KeysIn(MessageText(tag), extract))
  }

  // ---------------------------------------------------------------------------
  // Formatting
  // ---------------------------------------------------------------------------

  /** `addTabToMultilineString`: the non-empty lines, each behind a tab. */
  function AddTab(s: string): (r: string)
    ensures Lines(r) == Prefixed(Lines(s), "\t")
  {
    PrependToEachLineLines(s, "\t");
    PrependToEachLine(s, "\t")
  }

  function Header(tag: Tag): string
  {
    "Tag: " + tag.name
  }

  function IssueLine(issue: Issue): string
  {
    issue.key.value + ": " + issue.summary
  }

  function IssueEntries(issues: seq<Issue>): (entries: seq<string>)
    ensures |entries| == |issues|
    ensures forall i :: 0 <= i < |issues| ==> entries[i] == AddTab(IssueLine(issues[i]))
  {
    seq(|issues|, i requires 0 <= i < |issues| => AddTab(IssueLine(issues[i])))
  }

  /** `formatIssuesReport(for:issues:)`. */
  function FormatIssuesReport(tag: Tag, issues: seq<Issue>): (r: string)
    ensures |r| > |Header(tag)| && r[..|Header(tag)| + 1] == Header(tag) + "\n"
  {
    var output := Header(tag) + "\n";
    if |issues| == 0 then
      match tag.message
      case Some(m) => output + AddTab(m) + "\n"
      case None => output + NoIssuesNoMessage
    else
      var withMessage := match tag.message
        case Some(m) => output + AddTab(m) + "\n"
        case None => output;
      withMessage + MentionedBlock(issues)
  }

  /** `formatFailureReport(for:error:)`. */
  function FormatFailureReport(tag: Tag, error: PipelineError, describe: PipelineError -> string): (r: string)
    ensures |r| > |Header(tag)| && r[..|Header(tag)| + 1] == Header(tag) + "\n"
  {
    Header(tag) + "\n" + AddTab(FailedToGetIssues + describe(error))
  }

  /** The tabbed lines of every issue, in issue order. */
  function IssueLines(issues: seq<Issue>): seq<string>
  {
    if |issues| == 0 then [] else Prefixed(Lines(IssueLine(issues[0])), "\t") + IssueLines(issues[1..])
  }

  lemma {:induction false} IssueEntriesSplit(issues: seq<Issue>)
    ensures SplitEach(IssueEntries(issues), Newline) == IssueLines(issues)
  {
    if |issues| > 0 {
      assert IssueEntries(issues)[1..] == IssueEntries(issues[1..]);
      IssueEntriesSplit(issues[1..]);
    }
  }

  /** The tag message's lines, each behind a tab; none without a message. */
  function MessageLines(tag: Tag): seq<string>
  {
    match tag.message
    case Some(m) => Prefixed(Lines(m), "\t")
    case None => []
  }

  /** What follows the tag line and the message in an issues section. */
  function IssuesBlockLines(tag: Tag, issues: seq<Issue>): seq<string>
  {
    if |issues| == 0 then (if tag.message.None? then [NoIssuesNoMessage] else [])
    else [MentionedIssuesTitle] + IssueLines(issues)
  }

  /** The text after the message: a blank line, the title, the entries. */
  function MentionedBlock(issues: seq<Issue>): string
  {
    "\n" + MentionedIssuesTitle + "\n" + Join(IssueEntries(issues), "\n")
  }

  /** A blank line, a title line and a body: the title, then the body's lines. */
  lemma TitledLines(title: string, body: string)
    requires |title| > 0 && Newline !in title
    ensures Lines("\n" + title + "\n" + body) == [title] + Lines(body)
  {
    var nl := Newline;
    SplitPiece(title, nl);
    assert "\n" + title + "\n" + body == "" + [nl] + (title + [nl] + body);
    SplitAround("", title + [nl] + body, nl);
    SplitAround(title, body, nl);
  }

  lemma MentionedBlockLines(issues: seq<Issue>)
    ensures Lines(MentionedBlock(issues)) == [MentionedIssuesTitle] + IssueLines(issues)
  {
    TitledLines(MentionedIssuesTitle, Join(IssueEntries(issues), "\n"));
    SplitJoinTexts(IssueEntries(issues), Newline);
    IssueEntriesSplit(issues);
  }

  lemma EmptyIssuesLines(tag: Tag)
    ensures Lines(FormatIssuesReport(tag, [])) == Lines(Header(tag)) + MessageLines(tag) + IssuesBlockLines(tag, [])
  {
    var nl := Newline;
    var h := Header(tag);
    match tag.message {
      case Some(m) =>
        assert FormatIssuesReport(tag, []) == h + [nl] + (AddTab(m) + [nl] + "");
        SplitAround(h, AddTab(m) + [nl] + "", nl);
        SplitAround(AddTab(m), "", nl);
      case None =>
        SplitPiece(NoIssuesNoMessage, nl);
        assert FormatIssuesReport(tag, []) == h + [nl] + NoIssuesNoMessage;
        SplitAround(h, NoIssuesNoMessage, nl);
    }
  }

  lemma SomeIssuesLines(tag: Tag, issues: seq<Issue>)
    requires |issues| > 0
    ensures Lines(FormatIssuesReport(tag, issues)) == Lines(Header(tag)) + MessageLines(tag) + IssuesBlockLines(tag, issues)
  {
    var nl := Newline;
    var h := Header(tag);
    var block := MentionedBlock(issues);
    MentionedBlockLines(issues);
    match tag.message {
      case Some(m) =>
        assert FormatIssuesReport(tag, issues) == h + [nl] + (AddTab(m) + [nl] + block);
        SplitAround(h, AddTab(m) + [nl] + block, nl);
        SplitAround(AddTab(m), block, nl);
      case None =>
        assert FormatIssuesReport(tag, issues) == h + [nl] + block;
        SplitAround(h, block, nl);
    }
  }

  /** The lines of an issues section: the tag line; the tag message's lines,
      tabbed, whenever there is a message; then either the placeholder
      (no issues, no message), nothing (no issues but a message), or the
      title followed by every issue's tabbed lines in issue order. */
  lemma IssuesReportLines(tag: Tag, issues: seq<Issue>)
    ensures Lines(FormatIssuesReport(tag, issues)) ==
      Lines(Header(tag))
      + (if tag.message.Some? then Prefixed(Lines(tag.message.value), "\t") else [])
      + (if |issues| == 0 then (if tag.message.None? then [NoIssuesNoMessage] else [])
         else [MentionedIssuesTitle] + IssueLines(issues))
  {
    if |issues| == 0 {
      EmptyIssuesLines(tag);
    } else {
      SomeIssuesLines(tag, issues);
    }
  }

  /** The lines of a failure section: the tag line, then the tabbed lines of
      the failure notice and the error's description. */
  lemma FailureReportLines(tag: Tag, error: PipelineError, describe: PipelineError -> string)
    ensures Lines(FormatFailureReport(tag, error, describe)) ==
      Lines(Header(tag)) + Prefixed(Lines(FailedToGetIssues + describe(error)), "\t")
  {
    SplitAround(Header(tag), AddTab(FailedToGetIssues + describe(error)), Newline);
  }

  // ---------------------------------------------------------------------------
  // issuesInRelease
  // ---------------------------------------------------------------------------

  /** The first stage: the diff, reduced to its issue keys. */
  function FetchIssueKeys(fromTag: Tag, toTag: Tag, sv: Services): Task<seq<IssueKey>, PipelineError>
  {
    Firstly(() =>
      MapSuccess(
        MapError(Resolved(sv.diff(fromTag, toTag)), (e: RestError) => FailedToGetDiff(e)),
        (d: Diff) => ExtractIssues(toTag, d, sv.extract)))
  }

  /** The second stage: no keys, no search. */
  function SearchIssues(keys: seq<IssueKey>, sv: Services): Task<SearchResults, PipelineError>
  {
    if |keys| == 0 then JustValue(SearchResults([]), Metatype)
    else MapError(Resolved(sv.search(IssuesWithIds(keys))), (e: RestError) => FailedToFindIssues(e))
  }

  /** The final stage: either outcome becomes the pair's section. */
  function Describe(toTag: Tag, describe: PipelineError -> string, r: Result<SearchResults, PipelineError>): Result<string, Never>
  {
    match r
    case Success(found) => Success(FormatIssuesReport(toTag, found.issues))
    case Failure(e) => Success(FormatFailureReport(toTag, e, describe))
  }

  /** `issuesInRelease(fromTag:toTag:)`. */
  function IssuesInRelease(fromTag: Tag, toTag: Tag, sv: Services): Task<string, Never>
  {
    Map(Then(FetchIssueKeys(fromTag, toTag, sv), (keys: seq<IssueKey>) => SearchIssues(keys, sv)),
        (r: Result<SearchResults, PipelineError>) => Describe(toTag, sv.describe, r))
  }

  /** The reference section for one pair, by cases on the services' answers. */
  function PairReport(fromTag: Tag, toTag: Tag, sv: Services): string
  {
    match sv.diff(fromTag, toTag)
    case Failure(e) => FormatFailureReport(toTag, FailedToGetDiff(e), sv.describe)
    case Success(d) =>
      var keys := ExtractIssues(toTag, d, sv.extract);
      if |keys| == 0 then FormatIssuesReport(toTag, [])
      else
        match sv.search(IssuesWithIds(keys))
        case Success(found) => FormatIssuesReport(toTag, found.issues)
        case Failure(e) => FormatFailureReport(toTag, FailedToFindIssues(e), sv.describe)
  }

  /** The per-pair task never fails and delivers its section exactly once:
      a diff or search failure becomes the pair's failure section. */
  lemma IssuesInReleaseDelivers(fromTag: Tag, toTag: Tag, sv: Services)
    ensures IssuesInRelease(fromTag, toTag, sv) == Resolved(Success(PairReport(fromTag, toTag, sv)))
  {
    var keysTask := FetchIssueKeys(fromTag, toTag, sv);
    var next := (keys: seq<IssueKey>) => SearchIssues(keys, sv);
    match sv.diff(fromTag, toTag) {
      case Failure(e) =>
        assert Outcome(keysTask) == Failure(FailedToGetDiff(e));
      case Success(d) =>
        var keys := ExtractIssues(toTag, d, sv.extract);
        assert Outcome(keysTask) == Success(keys);
        assert Then(keysTask, next) == SearchIssues(keys, sv);
    }
  }

  /** When the diff mentions no keys the search service is never consulted:
      replacing it changes nothing, and the section is the empty-issues one. */
  lemma NoKeysNoSearch(fromTag: Tag, toTag: Tag, sv: Services, other: Query -> Result<SearchResults, RestError>)
    requires sv.diff(fromTag, toTag).Success?
    requires ExtractIssues(toTag, sv.diff(fromTag, toTag).value, sv.extract) == []
    ensures IssuesInRelease(fromTag, toTag, sv.(search := other)) == IssuesInRelease(fromTag, toTag, sv)
    ensures IssuesInRelease(fromTag, toTag, sv) == Resolved(Success(FormatIssuesReport(toTag, [])))
  {
    IssuesInReleaseDelivers(fromTag, toTag, sv);
    IssuesInReleaseDelivers(fromTag, toTag, sv.(search := other));
  }

  /** A failed diff yields only that pair's failure section, whatever the
      extractor and the search service would have answered. */
  lemma DiffFailureSection(fromTag: Tag, toTag: Tag, sv: Services,
                           search: Query -> Result<SearchResults, RestError>,
                           extract: string -> Result<seq<IssueKey>, Cause>)
    requires sv.diff(fromTag, toTag).Failure?
    ensures IssuesInRelease(fromTag, toTag, sv) ==
      Resolved(Success(FormatFailureReport(toTag, FailedToGetDiff(sv.diff(fromTag, toTag).error), sv.describe)))
    ensures IssuesInRelease(fromTag, toTag, sv.(search := search, extract := extract)) == IssuesInRelease(fromTag, toTag, sv)
  {
    IssuesInReleaseDelivers(fromTag, toTag, sv);
    IssuesInReleaseDelivers(fromTag, toTag, sv.(search := search, extract := extract));
  }

  // ---------------------------------------------------------------------------
  // releases(for:)
  // ---------------------------------------------------------------------------

  /** `tags.prefix(maxReleaseCount + 1)`; a negative length traps in Swift. */
  function Window(tags: seq<Tag>, maxReleaseCount: int): (w: seq<Tag>)
    requires maxReleaseCount >= -1
  {
    if |tags| <= maxReleaseCount + 1 then tags else tags[..maxReleaseCount + 1]
  }

  /** The pairs processed: consecutive tags of the window, newer first. */
  function ReleasePairs(tags: seq<Tag>, maxReleaseCount: int): seq<(Tag, Tag)>
    requires maxReleaseCount >= -1
  {
    Adjacents(Window(tags, maxReleaseCount))
  }

  /** There are `max(min(|tags|, maxReleaseCount + 1) - 1, 0)` pairs, pair
      `i` being `(tags[i], tags[i + 1])`. */
  lemma ReleasePairsShape(tags: seq<Tag>, maxReleaseCount: int)
    requires maxReleaseCount >= -1
    ensures var n := if |tags| <= maxReleaseCount + 1 then |tags| else maxReleaseCount + 1;
      |ReleasePairs(tags, maxReleaseCount)| == if n == 0 then 0 else n - 1
    ensures forall i :: 0 <= i < |ReleasePairs(tags, maxReleaseCount)| ==>
      ReleasePairs(tags, maxReleaseCount)[i] == (tags[i], tags[i + 1])
  {
  }

  /** `compactMap { try? $0.get() }`: the success values, in order. */
  function Successes<S, E>(results: seq<Result<S, E>>): (vs: seq<S>)
    ensures (forall i :: 0 <= i < |results| ==> results[i].Success?) ==>
      |vs| == |results| && forall i :: 0 <= i < |results| ==> vs[i] == results[i].value
  {
    if |results| == 0 then []
    else match Get(results[0])
      case Some(v) => [v] + Successes(results[1..])
      case None => Successes(results[1..])
  }

  /** The report from the per-pair results. */
  function JoinSections(results: seq<Result<string, Never>>): string
  {
    if |results| == 0 then NoReleases else Join(Successes(results), SectionSeparator)
  }

  /** The fan-out of `releases(for:)`: one `issuesInRelease` per pair, run
      as a group; each pair's diff runs from the older tag to the newer. */
  function Sections(tags: seq<Tag>, maxReleaseCount: int, sv: Services): Task<seq<Result<string, Never>>, Never>
    requires maxReleaseCount >= -1
  {
    ForEach(ReleasePairs(tags, maxReleaseCount), (pair: (Tag, Tag)) => IssuesInRelease(pair.1, pair.0, sv))
  }

  /** `releases(for:)`. */
  function Releases(tags: seq<Tag>, maxReleaseCount: int, sv: Services): (t: Task<string, Never>)
    requires maxReleaseCount >= -1
    ensures NeverFails(t)
  {
    MapSuccess(Sections(tags, maxReleaseCount, sv), (results: seq<Result<string, Never>>) => JoinSections(results))
  }

  /** The reference sections, one per pair, in pair order. */
  function PairReports(tags: seq<Tag>, maxReleaseCount: int, sv: Services): (reports: seq<string>)
    requires maxReleaseCount >= -1
    ensures |reports| == |ReleasePairs(tags, maxReleaseCount)|
  {
    var pairs := ReleasePairs(tags, maxReleaseCount);
    seq(|pairs|, i requires 0 <= i < |pairs| => PairReport(pairs[i].1, pairs[i].0, sv))
  }

  /** The reference report: with no pairs the "no releases" notice,
      otherwise the sections of the pairs, newest pair first, joined by a
      blank line. */
  function ReleaseReport(tags: seq<Tag>, maxReleaseCount: int, sv: Services): string
    requires maxReleaseCount >= -1
  {
    if |ReleasePairs(tags, maxReleaseCount)| == 0 then NoReleases
    else Join(PairReports(tags, maxReleaseCount, sv), SectionSeparator)
  }

  /** The group delivers once, with pair `i`'s section in slot `i` whatever
      the order the pairs finish in. */
  lemma SectionsDeliver(tags: seq<Tag>, maxReleaseCount: int, sv: Services)
    requires maxReleaseCount >= -1
    ensures ExactlyOnce(Sections(tags, maxReleaseCount, sv))
    ensures Outcome(Sections(tags, maxReleaseCount, sv)).Success?
    ensures var results := Outcome(Sections(tags, maxReleaseCount, sv)).value;
      && |results| == |PairReports(tags, maxReleaseCount, sv)|
      && forall i :: 0 <= i < |results| ==> results[i] == Success(PairReports(tags, maxReleaseCount, sv)[i])
  {
    var pairs := ReleasePairs(tags, maxReleaseCount);
    var f := (pair: (Tag, Tag)) => IssuesInRelease(pair.1, pair.0, sv);
    forall i | 0 <= i < |pairs|
      ensures ExactlyOnce(f(pairs[i])) && Outcome(f(pairs[i])) == Success(PairReport(pairs[i].1, pairs[i].0, sv))
    {
      IssuesInReleaseDelivers(pairs[i].1, pairs[i].0, sv);
    }
  }

  /** The fan-out delivers the reference report exactly once. */
  lemma ReleasesDelivers(tags: seq<Tag>, maxReleaseCount: int, sv: Services)
    requires maxReleaseCount >= -1
    ensures Releases(tags, maxReleaseCount, sv) == Resolved(Success(ReleaseReport(tags, maxReleaseCount, sv)))
  {
    var group := Sections(tags, maxReleaseCount, sv);
    SectionsDeliver(tags, maxReleaseCount, sv);
    var results := Outcome(group).value;
    ResolvedOutcome(group);
    ResolvedMaps(Success(results), (results: seq<Result<string, Never>>) => JoinSections(results), (e: Never) => e);
    assert Successes(results) == PairReports(tags, maxReleaseCount, sv);
  }

  // ---------------------------------------------------------------------------
  // mainTask
  // ---------------------------------------------------------------------------

  /** The message `mainTask` sends. */
  function ReportMessage(channel: string, report: string): Message
  {
    Message(Some(channel), Username, None, Some(IconEmoji), report)
  }

  /** The first stage of `mainTask`: the tags, a failure tagged
      `failedToGetTags`. */
  function FetchTags(sv: Services): Task<seq<Tag>, PipelineError>
  {
    Firstly(() => MapError(Resolved(sv.tags), (e: RestError) => FailedToGetTags(e)))
  }

  /** The second stage: the report, which cannot fail. */
  function BuildReport(tags: seq<Tag>, maxReleaseCount: int, sv: Services): Task<string, PipelineError>
    requires maxReleaseCount >= -1
  {
    WithErrorType<string, PipelineError>(Releases(tags, maxReleaseCount, sv), Metatype)
  }

  /** The third stage: the message, a failure tagged `failedToSendReport`. */
  function SendReport(report: string, channel: string, sv: Services): Task<(), PipelineError>
  {
    MapError(Resolved(sv.send(ReportMessage(channel, report))), (e: RestError) => FailedToSendReport(e))
  }

  /** `mainTask()`. */
  function MainTask(sv: Services, channel: string, maxReleaseCount: int): Task<(), PipelineError>
    requires maxReleaseCount >= -1
  {
    var report := Then(FetchTags(sv), (ts: seq<Tag>) => BuildReport(ts, maxReleaseCount, sv));
    var sent := Then(report, (text: string) => SendReport(text, channel, sv));
    MapError(sent, (e: PipelineError) => e)
  }

  lemma FetchTagsOutcome(sv: Services)
    ensures FetchTags(sv) == Resolved(match sv.tags
      case Success(ts) => Success(ts)
      case Failure(e) => Failure(FailedToGetTags(e)))
  {
    ResolvedMaps(sv.tags, (ts: seq<Tag>) => ts, (e: RestError) => FailedToGetTags(e));
  }

  lemma BuildReportDelivers(tags: seq<Tag>, maxReleaseCount: int, sv: Services)
    requires maxReleaseCount >= -1
    ensures BuildReport(tags, maxReleaseCount, sv) == Resolved(Success(ReleaseReport(tags, maxReleaseCount, sv)))
  {
    ReleasesDelivers(tags, maxReleaseCount, sv);
  }

  lemma SendReportOutcome(report: string, channel: string, sv: Services)
    ensures SendReport(report, channel, sv) == Resolved(match sv.send(ReportMessage(channel, report))
      case Success(_) => Success(())
      case Failure(e) => Failure(FailedToSendReport(e)))
  {
    var sent := sv.send(ReportMessage(channel, report));
    var tagged := (e: RestError) => FailedToSendReport(e);
    ResolvedMaps(sent, (u: ()) => u, tagged);
    assert SendReport(report, channel, sv) == MapError(Resolved(sent), tagged);
    match sent {
      case Success(u) => assert u == ();
      case Failure(e) =>
    }
  }

  /** The run's outcome: a failed tag fetch is `failedToGetTags` and nothing
      is sent; otherwise exactly one message is sent, from "ChangeDog" with
      the ":dog:" emoji to the configured channel, carrying the reference
      report, and a failed send is `failedToSendReport`. */
  lemma MainTaskOutcome(sv: Services, channel: string, maxReleaseCount: int, send: Message -> Result<(), RestError>)
    requires maxReleaseCount >= -1
    ensures sv.tags.Failure? ==>
      && MainTask(sv, channel, maxReleaseCount) == Resolved(Failure(FailedToGetTags(sv.tags.error)))
      && MainTask(sv.(send := send), channel, maxReleaseCount) == MainTask(sv, channel, maxReleaseCount)
    ensures sv.tags.Success? ==>
      var message := Message(Some(channel), "ChangeDog", None, Some(":dog:"), ReleaseReport(sv.tags.value, maxReleaseCount, sv));
      MainTask(sv, channel, maxReleaseCount) ==
        Resolved(match sv.send(message)
          case Success(_) => Success(())
          case Failure(e) => Failure(FailedToSendReport(e)))
  {
    FetchTagsOutcome(sv);
    FetchTagsOutcome(sv.(send := send));
    var build := (ts: seq<Tag>) => BuildReport(ts, maxReleaseCount, sv);
    var report := Then(FetchTags(sv), build);
    if sv.tags.Success? {
      var text := ReleaseReport(sv.tags.value, maxReleaseCount, sv);
      BuildReportDelivers(sv.tags.value, maxReleaseCount, sv);
      assert report == Resolved(Success(text));
      SendReportOutcome(text, channel, sv);
      MapErrorIdentity(Then(report, (text: string) => SendReport(text, channel, sv)));
    } else {
      MapErrorIdentity(Then(report, (text: string) => SendReport(text, channel, sv)));
      MapErrorIdentity(Then(Then(FetchTags(sv.(send := send)), (ts: seq<Tag>) => BuildReport(ts, maxReleaseCount, sv.(send := send))),
        (text: string) => SendReport(text, channel, sv.(send := send))));
    }
  }
}
