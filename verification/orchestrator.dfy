/** The orchestrator: loads the configuration, registers the crawlers it can build, in a
    fixed order, and runs them all. The GitHub, OpenRouter and MCP constructors' outcomes are
    given; the Hacker News constructor succeeds exactly when the Gemini key is set. */
module Orchestrator {
  import opened Wrappers
  import opened Crawler
  import opened Configuration

  /** The crawlers of the repository. */
  datatype Source = GitHubTrending | HackerNews | OpenRouter | McpRankings | XaiSearch | CustomSite

  /** Where a crawler is registered relative to the others. */
  function Position(s: Source): nat {
    match s
    case GitHubTrending => 0
    case HackerNews => 1
    case OpenRouter => 2
    case McpRankings => 3
    case XaiSearch => 4
    case CustomSite => 5
  }

  /** Whether the GitHub, OpenRouter and MCP constructors succeed. */
  datatype Constructors = Constructors(github: bool, openRouter: bool, mcpRankings: bool)

  /** `HackerNewsCrawler::new`: fails exactly when the Gemini key is missing. */
  function NewHackerNews(config: Config): (r: Result<(), string>)
    ensures r.Ok? <==> config.geminiApiKey.Some?
  {
    match RequireGeminiApiKey(config)
    case Ok(_) => Ok(())
    case Err(e) => Err(e)
  }

  /** Appends `s` when `build` holds. */
  function AddIf(m: CrawlerManager<Source>, build: bool, s: Source): (r: CrawlerManager<Source>)
    ensures r.crawlers == if build then m.crawlers + [s] else m.crawlers
  {
    if build then AddCrawler(m, s) else m
  }

  /** The registrations: GitHub when languages are configured and its constructor succeeds,
      Hacker News when the Gemini key is set, OpenRouter and MCP when their constructors
      succeed; the xAI and custom-site crawlers never. A failed constructor only leaves its
      crawler out. */
  function Register(config: Config, ctors: Constructors): (m: CrawlerManager<Source>)
    ensures GitHubTrending in m.crawlers <==> |config.languages| > 0 && ctors.github
    ensures HackerNews in m.crawlers <==> config.geminiApiKey.Some?
    ensures OpenRouter in m.crawlers <==> ctors.openRouter
    ensures McpRankings in m.crawlers <==> ctors.mcpRankings
    ensures XaiSearch !in m.crawlers && CustomSite !in m.crawlers
    ensures forall i, j :: 0 <= i < j < |m.crawlers| ==> Position(m.crawlers[i]) < Position(m.crawlers[j])
  {
    var m0 := NewManager();
    var m1 := AddIf(m0, |config.languages| > 0 && ctors.github, GitHubTrending);
    var m2 := AddIf(m1, config.geminiApiKey.Some? && NewHackerNews(config).Ok?, HackerNews);
    var m3 := AddIf(m2, ctors.openRouter, OpenRouter);
    AddIf(m3, ctors.mcpRankings, McpRankings)
  }

  /** Why the process exits with an error. */
  datatype StartupError = ConfigFailed(message: string) | CrawlersFailed(error: CrawlerError)

  /** `main`: fails when the configuration cannot be loaded, or when some registered crawler
      fails; each registered crawler runs once. */
  method Start(env: Env, ctors: Constructors, run: Source -> Outcome)
    returns (ran: seq<Source>, result: Result<(), StartupError>)
    ensures FromEnv(env).Err? ==> ran == [] && result == Err(ConfigFailed(FromEnv(env).error))
    ensures FromEnv(env).Ok? ==> ran == Register(FromEnv(env).value, ctors).crawlers
    ensures result.Err? <==> FromEnv(env).Err? || exists i :: 0 <= i < |ran| && run(ran[i]).Err?
  {
    var loaded := FromEnv(env);
    if loaded.Err? {
      return [], Err(ConfigFailed(loaded.error));
    }
    var manager := Register(loaded.value, ctors);
    var outcomes, successes, failures, outcome := RunAll(manager, run);
    ran := manager.crawlers;
    if outcome.Err? {
      result := Err(CrawlersFailed(outcome.error));
    } else {
      result := Ok(());
    }
  }
}
