# cution crawlers in Dafny

A model of the deterministic core of the cution content crawler, a Rust workspace that
collects a daily snapshot from several sources and stores each as a Markdown file in a
Supabase Storage bucket under `YYYY-MM-DD/<source>.md`. The sources are GitHub trending,
Hacker News, the OpenRouter and MCP ranking pages, an xAI news digest and a custom site.

Fetching, HTML and JSON parsing, uploading and the clock are all given as input values:

- a page is the sequence of its matched rows or articles, each with optional field texts;
- a fetch or an upload is a `Result` or a `Response` value;
- tag stripping and the summariser are function parameters;
- the date is a `today` string.

What remains, and what this project proves, is each crawler's sequence of decisions:

- what it parses;
- what it filters and renders;
- whether it uploads or skips;
- what it uploads, and where;
- how a failure maps to an error.

It also covers the configuration parsing, the crawler manager's fold over outcomes, the
orchestrator's registration rule, and the arXiv body-text heuristic.

| file | module | what it holds |
|---|---|---|
| wrappers.dfy | `Wrappers` | `Option`, `Result` |
| seqs.dfy | `Seqs` | map, filter, filter-map with the indices it keeps, `Present` (the `Some` values of a sequence), flatten, take |
| text.dfy | `Text` | the string operations the crates call: Unicode `trim`, `split`, `join`, `lines`, `replace`, UTF-8 byte length, ASCII lower-casing, decimal rendering |
| body_text.dfy | `BodyText` | `extract_body_text` and `is_valid_body_line` of the arXiv crate |
| crawler.dfy | `Crawler` | `CrawlerManager` and `run_all` |
| config.dfy | `Configuration` | `Config::from_env`, `storage_url`, the `require_*` accessors |
| storage.dfy | `Storage` | the Supabase Storage upload client, in all five of its copies |
| pipeline.dfy | `Pipeline` | the report of a run: the upload made, if any, and the result |
| github.dfy | `GithubTrending` | the trending fetcher |
| rankings.dfy | `Rankings` | rank numbering and the Markdown table shared by the two ranking crawlers |
| mcp_rankings.dfy | `McpRankings` | the MCP server rankings crawler |
| openrouter.dfy | `OpenRouter` | the OpenRouter model rankings crawler |
| hacker_news.dfy | `HackerNews` | the Hacker News crawler: API, story model, per-story decision, run |
| custom_site.dfy | `CustomSite` | the custom-site crawler |
| xai_search.dfy | `XaiSearch` | the xAI news digest crawler |
| orchestrator.dfy | `Orchestrator` | which crawlers the binary registers, and its exit result |

The Supabase upload client exists in five hand-written copies: the shared one in `common`,
and private ones in the Hacker News, GitHub, custom-site and xAI crates. They agree on the
object URL and the request body. They differ in whether they send an `apikey` header and
in the wording of their error messages. `Storage.StorageClient` carries a `ClientCopy` tag,
and `Storage.CopiesAgree` states what they share.

Strings are sequences of Unicode scalar values:

- Rust's byte `len()` is `Text.ByteLen`, the sum of the characters' UTF-8 widths;
- `chars().take(n)` is a plain prefix;
- `trim` removes the characters with the Unicode `White_Space` property;
- `to_lowercase` folds ASCII letters only.

Three behaviours of the code that a reader might not expect:

- **arXiv second pass.** The second pass of `extract_body_text` keeps every trimmed line of
  at least 40 bytes from the start line on. It does not apply the validity test again.
- **Ranking gaps.** A ranking's number is its position among all matched rows. A skipped row
  still uses up a number, so the ranks can have gaps.
- **Orchestrator.** The orchestrator never registers the xAI or custom-site crawlers. Both
  are only logged as pending.

## Model

| member | source | states |
|---|---|---|
| BodyText.ContainsKeyword | crates/arxiv/src/lib.rs:69-80 | the keyword scan finds a keyword exactly when one of the listed words occurs in the lower-cased line |
| BodyText.ValidBodyLineIff | crates/arxiv/src/lib.rs:64-87 | a line is valid iff it has no `@`, none of the five affiliation words in any ASCII case, at least the minimum byte length, and a `.` |
| BodyText.AtSignInvalid | crates/arxiv/src/lib.rs:65-67 | a line containing `@` is invalid whatever its length or punctuation |
| BodyText.StartIndex | crates/arxiv/src/lib.rs:37-48 | the start index is 0 or a line index; when some line starts the body, it is the first such line |
| BodyText.ScanForStart | crates/arxiv/src/lib.rs:37-48 | the first-pass loop, with its skip-short-lines `continue` and its `break`, computes that start index |
| BodyText.BodyLinesSelect | crates/arxiv/src/lib.rs:50-61 | the output lines are exactly the trimmed lines of at least 40 bytes from the start index on, in input order, each with the artifact replaced after the length check, and without a second validity test |
| BodyText.StartLineIsFirst | crates/arxiv/src/lib.rs:44-54 | a found start line is itself the first output line |
| BodyText.FallbackToWholeText | crates/arxiv/src/lib.rs:37-61 | with no start line, every input line is considered from index 0 |
| BodyText.NoBodyIsEmpty | crates/arxiv/src/lib.rs:30-34 | a document without a body yields the empty string |
| BodyText.SingleParagraphRoundTrip | crates/arxiv/src/lib.rs:27-62 | a clean single paragraph that passes the start test comes back unchanged |
| Crawler.NewManager | crates/common/src/crawler.rs:23-27 | a new manager has no crawlers |
| Crawler.AddCrawler | crates/common/src/crawler.rs:29-32 | the crawler is appended; the others keep their places |
| Crawler.CountOkIsMultiplicity | crates/common/src/crawler.rs:59-64 | the success count is the number of `Ok` outcomes |
| Crawler.TallyOrderIndependent | crates/common/src/crawler.rs:56-64 | any permutation of the outcomes gives the same success and failure counts |
| Crawler.RunAll | crates/common/src/crawler.rs:34-78 | every crawler runs once with an outcome of its own; the counts add up to the number of crawlers; the result is an error iff some crawler failed, with both counts in the message |
| Configuration.ParseLanguages | crates/common/src/config.rs:32-41 | every parsed language is a non-empty trimmed comma field: no comma, no surrounding whitespace |
| Configuration.ParseLanguagesAppend | crates/common/src/config.rs:34-39 | the languages keep the order of the raw string |
| Configuration.ParseLanguagesEmptyIff | crates/common/src/config.rs:32-41 | the list is empty iff the raw string holds only commas and whitespace |
| Configuration.StorageUrl | crates/common/src/config.rs:30 | the storage URL is the project URL without its trailing slashes, followed by `/storage/v1` |
| Configuration.StorageObjectUrl | crates/common/src/config.rs:30 | a client built on the storage URL keeps it whole, so object URLs are the project URL, `/storage/v1/object/`, the bucket and the path |
| Configuration.FromEnv | crates/common/src/config.rs:22-55 | loading fails iff a storage variable is unset, naming the first missing one; every field is read from its variable; the optional keys never fail |
| Configuration.NoLanguagesIsNotAnError | crates/common/src/config.rs:32-41 | an unset or blank language list gives an empty list, not an error |
| Configuration.Require | crates/common/src/config.rs:57-73 | Ok(v) iff the option is Some(v), else the given message |
| Configuration.RequireGeminiApiKey | crates/common/src/config.rs:57-61 | Ok iff the Gemini key is present, returning it |
| Configuration.RequireXaiApiKey | crates/common/src/config.rs:63-67 | Ok iff the xAI key is present, returning it |
| Configuration.RequireCustomSiteUrl | crates/common/src/config.rs:69-73 | Ok iff the custom-site URL is present, returning it |
| Configuration.RequireLanguages | crates/common/src/config.rs:75-80 | an error iff the list is empty, otherwise the list unchanged |
| Storage.NewClient | crates/common/src/supabase_client.rs:14-20 | the stored base URL is the given one with all trailing slashes removed |
| Storage.ObjectUrl | crates/common/src/supabase_client.rs:24-29 | the object URL is the base URL, `/object/`, the bucket, `/`, and the path without its leading slashes |
| Storage.LeadingSlashesIgnored | crates/common/src/supabase_client.rs:28 | paths differing only in leading slashes give the same URL |
| Storage.TrailingSlashesIgnored | crates/common/src/supabase_client.rs:17 | base URLs differing only in trailing slashes give the same client |
| Storage.UploadRequest | crates/common/src/supabase_client.rs:33-42 | the request goes to the object URL with the content as its body, upsert, bearer and content-type headers, and an `apikey` header exactly in the copies that send one |
| Storage.UploadResult | crates/common/src/supabase_client.rs:44-50 | Ok iff the response is a success status; each copy's error text for a transport error and for a refused upload |
| Storage.CopiesAgree | crates/hacker_news/src/storage.rs:28-56 | all copies agree on URL, body and success; the shared copy is the older Hacker News copy plus the `apikey` header, with the same error text |
| Pipeline.Store | crates/mcp_rankings/src/lib.rs:118-121 | an upload is made at the path with the content; the run fails iff the upload fails, with the wrapped upload error |
| GithubTrending.LoadLanguages | crates/github/src/lib.rs:55-76 | an error iff the variable is unset, blank, or lists no language; otherwise the non-empty trimmed fields |
| GithubTrending.OverallTrendingUrl | crates/github/src/lib.rs:82-83 | the empty language drops the whole `/{language}` segment |
| GithubTrending.LanguageTrendingUrl | crates/github/src/lib.rs:84-85 | a named language fills the placeholder and leaves the rest of the URL as it is |
| GithubTrending.ParseArticle | crates/github/src/lib.rs:105-133 | an article is kept iff it has a name link; the name is the href without leading slashes; the link is `https://github.com/` + name; trimmed description; normalised stars |
| GithubTrending.StarsText | crates/github/src/lib.rs:122-126 | the stars are the trimmed text with every comma removed, or `0` when the element is missing |
| GithubTrending.RepositoriesSelect | crates/github/src/lib.rs:105-134 | one repository per article with a name link, in document order, none for the others |
| GithubTrending.StylizeShape | crates/github/src/lib.rs:147-159 | when name, stars and link contain no `{`, the rendering is the template with title, stars, link and description in their places, and the placeholder text for a missing description; the description, filled in last, may contain anything |
| GithubTrending.LanguageMarkdowns | crates/github/src/lib.rs:176-193 | a language yields sections iff its fetch succeeded and its page has a repository; the sections are its repositories' renderings, one per repository, in page order |
| GithubTrending.Tasks | crates/github/src/lib.rs:166-197 | one task per language, in spawn order |
| GithubTrending.ProcessedIffMarkdowns | crates/github/src/lib.rs:200-208 | some language is processed iff some section was collected |
| GithubTrending.Run | crates/github/src/lib.rs:161-230 | an upload iff some language produced sections, at `{today}/github-trending.md`, with the sections in language order joined by `\n---\n`; only the upload can fail the run |
| GithubTrending.LanguageWithoutResultsIsInvisible | crates/github/src/lib.rs:181-193 | a language whose fetch fails or whose page is empty changes nothing in the run |
| GithubTrending.SingleLanguageRun | crates/github/src/lib.rs:200-211 | one language's rendered repositories are uploaded joined by the section rule |
| Rankings.KeptName | crates/mcp_rankings/src/lib.rs:71-73 | a row is kept iff it has a name element whose trimmed text is non-empty, under that trimmed text |
| Rankings.RankedFrom | crates/mcp_rankings/src/lib.rs:70-100 | from a position on, each kept row gets rank index + 1; the ranks strictly increase, and every kept row appears |
| Rankings.RankedIsKeptRows | crates/openrouter/src/lib.rs:67-84 | the entries are exactly the kept rows in document order, each ranked by its position among all rows |
| Rankings.TableLines | crates/mcp_rankings/src/lib.rs:127-141 | read line by line, the table is title, blank, fetched line, blank, header, rule, then exactly the given rows |
| McpRankings.ParseU32 | crates/mcp_rankings/src/lib.rs:86-87 | a digit string parses iff it is non-empty and its value fits in a `u32` |
| McpRankings.Stars | crates/mcp_rankings/src/lib.rs:79-89 | stars never exceed the `u32` range and are 0 without an element |
| McpRankings.Description | crates/mcp_rankings/src/lib.rs:74-77 | the trimmed description text, or empty without an element |
| McpRankings.ParseRankings | crates/mcp_rankings/src/lib.rs:70-100 | the records are the named rows in document order; ranks strictly increase within 1..#rows; each record carries its row's trimmed name, description and stars; a row has a record iff its trimmed name is non-empty |
| McpRankings.StarsOfNumber | crates/mcp_rankings/src/lib.rs:79-89 | a decimal `u32` reads back as itself |
| McpRankings.StarsOverflowIsZero | crates/mcp_rankings/src/lib.rs:86-89 | digits beyond the `u32` range count as 0 |
| McpRankings.StarsReadsDigitsOnly | crates/mcp_rankings/src/lib.rs:82-85 | only the ASCII digits of the text matter |
| McpRankings.MarkdownHasOneRowPerServer | crates/mcp_rankings/src/lib.rs:127-141 | the document is the fixed header lines, then one table row per server, in order, with its rank, name, description and stars |
| McpRankings.ProcessRankings | crates/mcp_rankings/src/lib.rs:106-125 | a fetch error fails the run; no record means no upload; otherwise the table goes to `{today}/mcp-rankings.md`, and an upload failure becomes a storage error |
| McpRankings.UploadsIffSomeNamedRow | crates/mcp_rankings/src/lib.rs:70-112 | the run uploads iff some row has a non-blank name |
| McpRankings.SkippedRowsLeaveRankGaps | crates/mcp_rankings/src/lib.rs:70-92 | a named row, a nameless row, a blank-named row and a named row are ranked 1 and 4 |
| OpenRouter.ScoreText | crates/openrouter/src/lib.rs:71-73 | the score text is present iff the row has a score element, and it is trimmed |
| OpenRouter.ParseRankings | crates/openrouter/src/lib.rs:67-84 | the rankings are the named rows in document order, ranked by position among all rows, with strictly increasing ranks; each carries its row's trimmed name and score text; a row has a ranking iff its trimmed name is non-empty |
| OpenRouter.MarkdownHasOneRowPerRanking | crates/openrouter/src/lib.rs:111-125 | the document has six header lines, then one row per ranking, in order |
| OpenRouter.ProcessRankings | crates/openrouter/src/lib.rs:90-109 | a fetch error fails the run; no ranking means no upload; otherwise the table goes to `{today}/openrouter-rankings.md`, and an upload failure becomes a storage error |
| OpenRouter.UploadsIffSomeNamedRow | crates/openrouter/src/lib.rs:67-96 | the run uploads iff some row has a non-blank name |
| HackerNews.GetTopStories | crates/hacker_news/src/api.rs:19-24 | the ids are the first min(limit, n) fetched ids in upstream order; a fetch error passes through |
| HackerNews.Summarize | crates/hacker_news/src/api.rs:41-44 | never fails; the summary is a character prefix of length min(200, n), equal to the content when it is short |
| HackerNews.SummaryIgnoresKeyAndTitle | crates/hacker_news/src/api.rs:41-44 | the summary does not depend on the key or the title |
| HackerNews.FromHnItem | crates/hacker_news/src/models.rs:23-32 | id, title, score, url and text are copied, and the given summary is stored |
| HackerNews.Body | crates/hacker_news/src/models.rs:35-48 | the body is the view link if there is a url, else the summary, else the stripped text, else the placeholder |
| HackerNews.MarkdownFields | crates/hacker_news/src/models.rs:50-53 | read line by line, a section is `# title`, blank, `**Score**: score`, blank, then the body's lines |
| HackerNews.StorySummary | crates/hacker_news/src/lib.rs:60-76 | a summary exists only for text inside the half-open byte window; inside it, it is the summariser's result on the cleaned text, and none when the summariser fails |
| HackerNews.ProcessStory | crates/hacker_news/src/lib.rs:54-85 | a story yields a section iff its fetch succeeded and its score meets the threshold; the section is the story rendered with its summary |
| HackerNews.SummariserOnlyInWindow | crates/hacker_news/src/lib.rs:60-75 | outside the window the summariser is never consulted |
| HackerNews.FailedSummaryStillRendered | crates/hacker_news/src/lib.rs:68-79 | a summariser error degrades to no summary, and the story is still rendered |
| HackerNews.PlaceholderSummary | crates/hacker_news/src/api.rs:41-44 | with the placeholder summariser, a story in the window is summarised by the first 200 characters of its cleaned text |
| HackerNews.StoryTasks | crates/hacker_news/src/lib.rs:47-87 | one task per id, each the per-story decision |
| HackerNews.ProcessStories | crates/hacker_news/src/lib.rs:37-114 | an id-list failure fails the run with an Api error; an upload iff some story produced a section, at `{today}/hacker-news.md`, with the collected sections joined by the separator, equal up to order to the sections of all tasks; an upload failure becomes a storage error |
| HackerNews.ProcessedCount | crates/hacker_news/src/lib.rs:89-94 | the processed count is the number of stories fetched and meeting the threshold, in any completion order |
| CustomSite.Summarize | crates/custom_site/src/lib.rs:31-34 | never fails; the first min(200, n) characters |
| CustomSite.MarkdownLayout | crates/custom_site/src/lib.rs:98 | the document's lines are the title, blank, `URL: ` + url, blank, then the summary's lines; the URL reads back from line 2 |
| CustomSite.Run | crates/custom_site/src/lib.rs:75-105 | skipped without the URL variable; a fetch error propagates; otherwise the markdown of the truncated cleaned page is uploaded to `{today}/custom-site.md` |
| CustomSite.UploadTarget | crates/custom_site/src/lib.rs:54-71 | the object URL is the trimmed storage URL, the bucket and the path; a refused upload is `Failed to upload: ` + the response text |
| XaiSearch.NewXaiClient | crates/xai_search/src/lib.rs:30-38 | the client keeps the key and builds its own storage client copy |
| XaiSearch.FetchNewsDigest | crates/xai_search/src/lib.rs:40-70 | a refused request is an error with status and text; otherwise the digest is the first choice's content, or empty without choices |
| XaiSearch.Run | crates/xai_search/src/lib.rs:72-90 | a fetch error fails the run; an empty digest is skipped; otherwise it is uploaded verbatim to `{today}/xai-news.md` |
| XaiSearch.NoDigestNoUpload | crates/xai_search/src/lib.rs:63-79 | no choice, or an empty first choice, means no upload and success |
| XaiSearch.EntryClient | crates/xai_search/src/lib.rs:139-151 | the entry point's client uses the xAI key and a storage client that sends the `apikey` header |
| XaiSearch.UploadTarget | crates/xai_search/src/lib.rs:110-135 | the object URL follows the trim rules; a refused upload is `Upload failed: status - text` |
| Orchestrator.NewHackerNews | crates/hacker_news/src/lib.rs:21-35 | the Hacker News constructor succeeds iff the Gemini key is present |
| Orchestrator.AddIf | crates/orchestrator/src/main.rs:62-66 | a crawler is appended iff its constructor succeeded |
| Orchestrator.Register | crates/orchestrator/src/main.rs:23-73 | GitHub iff languages and its constructor; Hacker News iff the Gemini key; OpenRouter and MCP iff their constructors; never xAI or custom site; in that order |
| Orchestrator.Start | crates/orchestrator/src/main.rs:20-76 | a configuration error fails before any crawler runs; otherwise the registered crawlers run, and the process fails iff some crawler failed |

## Left out

- Network I/O: requests, user agents, JSON decoding and response bodies. Each fetch outcome
  is a `Result` parameter and each upload response a `Response` parameter.
- A failure to read a response body (`resp.text()`): the model always has the text. Some
  copies map this failure to an error, others to an empty or placeholder body.
- HTML parsing and CSS selectors. Pages are given as their matched rows or articles. Tag
  stripping (`clean_html`, `parse_fragment`) is a function parameter.
- Selector-parse errors: the selectors are constants that parse.
- Concurrency: `tokio::spawn`, `JoinSet` and `join_all`.
  - GitHub's tasks are awaited in spawn order, so the model uses language order.
  - `join_all` is a sequential map.
  - Hacker News sections arrive in completion order. That order is the `joined` parameter,
    constrained only to be a permutation of all tasks' results.
  - A task that panics is not modelled.
- The clock: `now_utc` is a `today` string. The source reads the clock separately for the
  path and for the "Fetched on" line, so the two could differ around midnight. The model
  uses one date for both. The `fetched_at` record fields are dropped.
- OpenRouter.ParseRankings: the score is kept as its trimmed text. The `f64` parse, its 0.0
  fallback and the `{:.2}` rendering are not modelled; the table shows the score through a
  `showScore` parameter.
- Storage.UploadResult: the status in the GitHub and xAI copies' error text is rendered as its
  number only. Rust's `StatusCode` display also appends the reason phrase.
- XaiSearch.FetchNewsDigest: a refused request's error text renders the status as its number
  only ("Request failed: 404 - …"). Rust's `StatusCode` display gives "404 Not Found"; the
  table of reason phrases is not modelled.
- XaiSearch.UploadTarget: the same number-only status rendering in "Upload failed: …".
- BodyText.Artifact: `crates/arxiv/src/lib.rs:55` writes the replaced text as the char literal
  `'Ã‚'`, which holds two scalar values and so does not compile as Rust. The model reads it as
  the two-character string U+00C3 U+201A.
- Hacker News summariser: the Gemini call is not modelled. The summariser is a field of the
  API value. `HackerNews.Summarize` is the placeholder the crate ships.
- The xAI request body, headers and model name.
- `expect` panics in the `run_*_crawler` entry points. They are preconditions that the
  storage variables are set.
- dotenv loading, tracing and logging, and the crawler names (used only in log lines).
- The scheduler crate: cron, subprocess and Ctrl-C handling.
- `crates/hacker_news/src/main.rs`, the earlier sequential entry point.
- `crates/github/src/main.rs` and the `hello_world` crate.
- The unused `DataSource` trait.
- The `Display` texts of the error enum.
- Orchestrator.Register: the GitHub, OpenRouter and MCP constructor outcomes are boolean
  parameters. The orchestrator's `GithubTrendingFetcher::new(&config)` call and its
  `config.hacker_news` field do not match the signatures shown in the crates. For the same
  reason, the Hacker News thresholds are a parameter of the crawler value.
- Text.ToLower: folds ASCII letters only. Rust's `to_lowercase` folds all of Unicode. The
  five keywords are ASCII, so the difference shows only for a non-ASCII letter whose lower
  case is an ASCII letter, such as the Kelvin sign.
