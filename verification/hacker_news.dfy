/** The Hacker News crawler: the top stories are fetched one by one; each story scoring at
    least the threshold becomes a markdown section, summarised when its text lies inside a
    byte-length window; the sections are uploaded as one file. The HTTP calls, the HTML
    tag stripping and the summariser are fields of `HackerNewsApi`. */
module HackerNews {
  import opened Wrappers
  import opened Seqs
  import opened Text
  import opened Storage
  import opened Pipeline
  import opened Crawler

  /** An item as the item endpoint returns it (`HNItem`). */
  datatype HnItem = HnItem(id: nat, title: string, score: int, url: Option<string>, text: Option<string>)

  /** What one section is rendered from. */
  datatype StoryData = StoryData(storyId: nat, title: string, score: int, url: Option<string>,
                                 text: Option<string>, summary: Option<string>)

  /** The crawler's thresholds. */
  datatype HnConfig = HnConfig(maxStories: nat, minScoreThreshold: int, minHtmlLength: nat, maxHtmlLength: nat)

  /** `summarize(api_key, title, content)`. */
  type Summarizer = (string, string, string) -> Result<string, string>

  /** `HackerNewsAPI`, its network answers given: the id list the top-stories endpoint returns,
      the item endpoint's answer for each id, the tag stripper and the summariser. */
  datatype HackerNewsApi = HackerNewsApi(
    topStories: Result<seq<nat>, string>,
    getStory: nat -> Result<HnItem, string>,
    cleanHtml: string -> string,
    summarize: Summarizer)

  datatype HackerNewsCrawler = HackerNewsCrawler(api: HackerNewsApi, storage: StorageClient, geminiApiKey: string, config: HnConfig)

  const NoContent: string := "No content available."
  const SummaryChars: nat := 200
  const SectionSeparator: string := "\n\n---\n\n"

  // ---------------------------------------------------------------------------
  // The API

  /** `get_top_stories(limit)`: the first `limit` ids, in the order the endpoint gave them. */
  function GetTopStories(api: HackerNewsApi, limit: nat): (r: Result<seq<nat>, string>)
    ensures r.Ok? <==> api.topStories.Ok?
    ensures r.Ok? ==> r.value <= api.topStories.value
    ensures r.Ok? ==> |r.value| == if limit < |api.topStories.value| then limit else |api.topStories.value|
    ensures r.Err? ==> r.error == api.topStories.error
  {
    match api.topStories
    case Ok(ids) => Ok(Take(ids, limit))
    case Err(e) => Err(e)
  }

  /** The placeholder `summarize`: the first 200 characters of the content; it never fails
      and ignores the key and the title. */
  function Summarize(apiKey: string, title: string, content: string): (r: Result<string, string>)
    ensures r.Ok?
    ensures r.value <= content
    ensures |r.value| == if |content| < SummaryChars then |content| else SummaryChars
    ensures |content| <= SummaryChars ==> r.value == content
  {
    Ok(Take(content, SummaryChars))
  }

  /** The summary does not depend on the key or the title. */
  lemma SummaryIgnoresKeyAndTitle(key1: string, title1: string, key2: string, title2: string, content: string)
    ensures Summarize(key1, title1, content) == Summarize(key2, title2, content)
  {
  }

  // ---------------------------------------------------------------------------
  // Rendering one story

  /** `StoryData::from_hn_item`: the item's fields unchanged, with the given summary. */
  function FromHnItem(item: HnItem, summary: Option<string>): (s: StoryData)
    ensures s.storyId == item.id && s.title == item.title && s.score == item.score
    ensures s.url == item.url && s.text == item.text && s.summary == summary
  {
    StoryData(item.id, item.title, item.score, item.url, item.text, summary)
  }

  function ViewLink(url: string): string {
    "[View Link](" + url + ")"
  }

  /** The section body: a link when there is a url, else the summary, else the stripped text,
      else a fixed notice. */
  function Body(s: StoryData, strip: string -> string): (b: string)
    ensures s.url.Some? ==> b == "[View Link](" + s.url.value + ")"
    ensures s.url.None? && s.summary.Some? ==> b == s.summary.value
    ensures s.url.None? && s.summary.None? && s.text.Some? ==> b == strip(s.text.value)
    ensures s.url.None? && s.summary.None? && s.text.None? ==> b == NoContent
  {
    s.url.Map(ViewLink).OrElse(s.summary).OrElse(s.text.Map(strip)).GetOr(NoContent)
  }

  /** `to_markdown_string`. */
  function ToMarkdown(s: StoryData, strip: string -> string): string {
    "# " + s.title + "\n" + "\n" + "**Score**: " + IntToString(s.score) + "\n" + "\n" + Body(s, strip)
  }

  /** Read line by line, a section is its title heading, a blank line, the score line, a
      blank line, then the lines of the body. */
  lemma MarkdownFields(s: StoryData, strip: string -> string)
    requires '\n' !in s.title
    ensures Split(ToMarkdown(s, strip), '\n') ==
      ["# " + s.title, "", "**Score**: " + IntToString(s.score), ""] + Split(Body(s, strip), '\n')
  {
    IntToStringChars(s.score);
    SectionLayout(s.title, IntToString(s.score), Body(s, strip));
  }

  lemma SectionLayout(title: string, score: string, body: string)
    requires '\n' !in title && '\n' !in score
    ensures Split("# " + title + "\n" + "\n" + "**Score**: " + score + "\n" + "\n" + body, '\n') ==
      ["# " + title, "", "**Score**: " + score, ""] + Split(body, '\n')
  {
    var heading, scoreLine, blank := "# " + title, "**Score**: " + score, "";
    assert '\n' !in heading && '\n' !in scoreLine;
    SplitFourThenBody(heading, blank, scoreLine, blank, body);
    assert heading + "\n" + blank + "\n" + scoreLine + "\n" + blank + "\n" + body
        == "# " + title + "\n" + "\n" + "**Score**: " + score + "\n" + "\n" + body;
  }

  // ---------------------------------------------------------------------------
  // One story task

  /** The half-open byte-length window `[min_html_length, max_html_length)` that decides
      whether a story's text is summarised. */
  predicate InSummaryWindow(config: HnConfig, text: Option<string>) {
    text.Some? && config.minHtmlLength <= ByteLen(text.value) < config.maxHtmlLength
  }

  /** The summary a story gets: the summariser's answer on the cleaned text when the text lies
      in the window; a summariser error, or text outside the window, gives none. */
  function StorySummary(c: HackerNewsCrawler, item: HnItem): (r: Option<string>)
    ensures r.Some? ==> InSummaryWindow(c.config, item.text)
    ensures InSummaryWindow(c.config, item.text) ==>
      r == c.api.summarize(c.geminiApiKey, item.title, c.api.cleanHtml(item.text.value)).ToOption()
  {
    if InSummaryWindow(c.config, item.text) then
      c.api.summarize(c.geminiApiKey, item.title, c.api.cleanHtml(item.text.value)).ToOption()
    else
      None
  }

  /** One spawned task: the story's section, or nothing when the fetch failed or the score is
      below the threshold. */
  function ProcessStory(c: HackerNewsCrawler, id: nat): (r: Option<string>)
    ensures r.Some? <==> c.api.getStory(id).Ok? && c.api.getStory(id).value.score >= c.config.minScoreThreshold
    ensures r.Some? ==>
      r.value == ToMarkdown(FromHnItem(c.api.getStory(id).value, StorySummary(c, c.api.getStory(id).value)), c.api.cleanHtml)
  {
    match c.api.getStory(id)
    case Err(_) => None
    case Ok(item) =>
      if item.score < c.config.minScoreThreshold then None
      else Some(ToMarkdown(FromHnItem(item, StorySummary(c, item)), c.api.cleanHtml))
  }

  /** The summariser is only consulted for text inside the window: outside it, any two
      summarisers give the same section. */
  lemma SummariserOnlyInWindow(c: HackerNewsCrawler, other: Summarizer, id: nat)
    requires c.api.getStory(id).Ok? ==> !InSummaryWindow(c.config, c.api.getStory(id).value.text)
    ensures ProcessStory(c, id) == ProcessStory(c.(api := c.api.(summarize := other)), id)
  {
  }

  /** A summariser error does not drop the story: it is rendered from its url, or failing
      that from its stripped text, as if it had no summary. */
  lemma FailedSummaryStillRendered(c: HackerNewsCrawler, id: nat)
    requires c.api.getStory(id).Ok?
    requires c.api.getStory(id).value.score >= c.config.minScoreThreshold
    requires var item := c.api.getStory(id).value;
      !InSummaryWindow(c.config, item.text) || c.api.summarize(c.geminiApiKey, item.title, c.api.cleanHtml(item.text.value)).Err?
    ensures var item := c.api.getStory(id).value;
      ProcessStory(c, id) == Some(ToMarkdown(FromHnItem(item, None), c.api.cleanHtml))
  {
    var item := c.api.getStory(id).value;
    assert StorySummary(c, item) == None;
  }

  /** With the placeholder summariser, a story whose text lies in the window is summarised by
      the first 200 characters of its cleaned text. */
  lemma PlaceholderSummary(c: HackerNewsCrawler, item: HnItem)
    requires c.api.summarize == Summarize
    requires InSummaryWindow(c.config, item.text)
    ensures StorySummary(c, item) == Some(Take(c.api.cleanHtml(item.text.value), SummaryChars))
  {
  }

  // ---------------------------------------------------------------------------
  // The run

  /** All tasks' results, in the order the ids were spawned. */
  function StoryTasks(c: HackerNewsCrawler, ids: seq<nat>): (r: seq<Option<string>>)
    ensures |r| == |ids|
    ensures forall i :: 0 <= i < |ids| ==> r[i] == ProcessStory(c, ids[i])
  {
    seq(|ids|, i requires 0 <= i < |ids| => ProcessStory(c, ids[i]))
  }

  /** `process_stories`. Spawned tasks finish in an order the model does not fix: `joined` is their
      results in the order `join_next` yields them, so it holds each task's result once. */
  function ProcessStories(c: HackerNewsCrawler, joined: seq<Option<string>>, today: string, response: Response): (r: Report<CrawlerError>)
    requires GetTopStories(c.api, c.config.maxStories).Ok? ==>
      multiset(joined) == multiset(StoryTasks(c, GetTopStories(c.api, c.config.maxStories).value))
    ensures GetTopStories(c.api, c.config.maxStories).Err? ==>
      r == Report(None, Err(Api(GetTopStories(c.api, c.config.maxStories).error)))
    ensures var ids := GetTopStories(c.api, c.config.maxStories);
      ids.Ok? ==> (r.upload.Some? <==> exists i :: 0 <= i < |ids.value| && ProcessStory(c, ids.value[i]).Some?)
    ensures r.upload.Some? ==>
      && r.upload.value.path == today + "/hacker-news.md"
      && r.upload.value.content == Join(Present(joined), SectionSeparator)
      && |Present(joined)| > 0
      && forall m :: multiset(Present(joined))[m] ==
                     multiset(Present(StoryTasks(c, GetTopStories(c.api, c.config.maxStories).value)))[m]
    ensures r.result.Err? <==>
      GetTopStories(c.api, c.config.maxStories).Err? || (r.upload.Some? && UploadResult(c.storage, r.upload.value.path, response).Err?)
    ensures r.upload.Some? && r.result.Err? ==>
      r.result.error == StorageUpload(UploadResult(c.storage, r.upload.value.path, response).error)
  {
    match GetTopStories(c.api, c.config.maxStories)
    case Err(e) => Report(None, Err(Api(e)))
    case Ok(ids) =>
      var tasks := StoryTasks(c, ids);
      PresentPermutes(joined, tasks);
      PresentEmptyIff(tasks);
      var sections := Present(joined);
      if |sections| > 0 then
        Store(c.storage, today + "/hacker-news.md", Join(sections, SectionSeparator), response, (m: string) => StorageUpload(m))
      else
        Skipped()
  }

  /** The stories counted as processed are exactly the fetched stories meeting the threshold,
      whatever the order its tasks finished in. */
  lemma {:induction false} ProcessedCount(c: HackerNewsCrawler, ids: seq<nat>, joined: seq<Option<string>>)
    requires multiset(joined) == multiset(StoryTasks(c, ids))
    ensures |Present(joined)| == |ids| - multiset(StoryTasks(c, ids))[None]
    ensures |Present(joined)| == |Present(StoryTasks(c, ids))|
  {
    PresentPermutes(joined, StoryTasks(c, ids));
    PresentCount(joined);
    assert |joined| == |multiset(joined)| == |StoryTasks(c, ids)|;
  }
}
