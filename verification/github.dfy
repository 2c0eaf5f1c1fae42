/** The GitHub trending crawler: per-language page URLs, the extraction of repositories
    from the parsed articles, their Markdown rendering, and the single upload of all
    languages' sections. Each article arrives already parsed: the `href` of its name link
    (absent when the link or its `href` is missing), its description text and its
    stargazers text. A language's fetch outcome is given by `fetch`. */
module GithubTrending {
  import opened Wrappers
  import opened Seqs
  import opened Text
  import opened Storage
  import opened Pipeline
  import Configuration

  const UrlFormat: string := "https://github.com/trending/{language}?since=daily"

  /** The repository template, written split at its four placeholders. */
  const MarkdownFormat: string :=
    "\n# " + "{title}" + "\n\n**Stars**: " + "{stars}" + "\n\n[View Repository](" + "{link}" + ")\n\n"
    + "{description}" + "\n"

  const NoDescription: string := "No description provided."

  datatype FetchError =
    | HttpRequest(message: string)
    | HtmlParse(message: string)
    | SupabaseUpload(message: string)
    | LanguagesEnvVarMissing

  datatype Article = Article(nameHref: Option<string>, description: Option<string>, stars: Option<string>)

  datatype Repository = Repository(name: string, description: Option<string>, link: string, stars: string)

  /** `load_languages`: fails when the variable is unset, blank, or lists no language;
      otherwise the non-empty trimmed fields. */
  function LoadLanguages(raw: Option<string>): (r: Result<seq<string>, FetchError>)
    ensures r.Err? <==> raw.None? || Configuration.ParseLanguages(raw.value) == []
    ensures r.Err? ==> r.error == LanguagesEnvVarMissing
    ensures r.Ok? ==> |r.value| > 0 && r.value == Configuration.ParseLanguages(raw.value)
  {
    match raw
    case None => Err(LanguagesEnvVarMissing)
    case Some(s) =>
      if Trim(s) == "" then
        TrimEmptyIff(s);
        Configuration.ParseLanguagesEmptyIff(s);
        Err(LanguagesEnvVarMissing)
      else
        var languages := Configuration.ParseLanguages(s);
        if |languages| == 0 then Err(LanguagesEnvVarMissing) else Ok(languages)
  }

  /** The trending page of a language (`format!` of the URL template). */
  function TrendingUrl(language: string): string {
    // `language` is empty in the first branch, the replacement text of the source
    if language == "" then ReplaceAll(UrlFormat, "/{language}", language)
    else ReplaceAll(UrlFormat, "{language}", language)
  }

  lemma UrlFormatSegment()
    ensures UrlFormat == "https://github.com/trending" + ("/{language}" + "?since=daily")
  {}

  /** The `/{language}` segment with any replacement text in its place. */
  lemma SegmentFilled(text: string)
    ensures ReplaceAll(UrlFormat, "/{language}", text) == "https://github.com/trending" + text + "?since=daily"
  {
    UrlFormatSegment();
    ReplaceSingleSecond("https://github.com/trending", "/{language}", "?since=daily", text);
  }

  /** The overall page (the empty language) drops the whole `/{language}` path segment, so
      the URL is the base URL directly followed by the query. */
  lemma OverallTrendingUrl(language: string)
    requires language == ""
    ensures TrendingUrl(language) == "https://github.com/trending" + language + "?since=daily"
  {
    SegmentFilled(language);
  }

  /** A named language fills the placeholder, leaving the rest of the URL as it is. */
  lemma LanguageTrendingUrl(language: string)
    requires language != ""
    ensures TrendingUrl(language) == "https://github.com/trending/" + language + "?since=daily"
  {
    assert UrlFormat == "https://github.com/trending/" + ("{language}" + "?since=daily");
    ReplaceSingle("https://github.com/trending/", "{language}", "?since=daily", language);
  }

  /** One article: skipped without a name link; otherwise the name is the `href` without its
      leading slashes, the link is the GitHub URL of that name, the description is trimmed,
      and the stars are the trimmed text without its thousands separators, "0" if absent. */
  function ParseArticle(article: Article): (r: Option<Repository>)
    ensures r.Some? <==> article.nameHref.Some?
    ensures r.Some? ==> IsRepoName(article.nameHref.value, r.value.name)
    ensures r.Some? ==> r.value.link == "https://github.com/" + r.value.name
    ensures r.Some? ==> r.value.stars == StarsText(article.stars)
    ensures r.Some? ==> r.value.description == DescriptionText(article.description)
  {
    match article.nameHref
    case None => None
    case Some(href) =>
      var name := TrimStartBy(href, {'/'});
      Some(Repository(name, DescriptionText(article.description), "https://github.com/" + name, StarsText(article.stars)))
  }

  /** `name` is `href` without its leading slashes. */
  predicate IsRepoName(href: string, name: string) {
    && |name| <= |href|
    && name == href[|href| - |name|..]
    && (|name| > 0 ==> name[0] != '/')
    && (forall i :: 0 <= i < |href| - |name| ==> href[i] == '/')
  }

  /** The trimmed description text, when the element is present. */
  function DescriptionText(text: Option<string>): (r: Option<string>)
    ensures r.None? <==> text.None?
    ensures r.Some? ==> r.value == Trim(text.value)
  {
    match text
    case None => None
    case Some(t) => Some(Trim(t))
  }

  /** The stargazers text without thousands separators, "0" when the element is missing. */
  function StarsText(text: Option<string>): (r: string)
    ensures text.None? ==> r == "0"
    ensures text.Some? ==> r == Without(Trim(text.value), ',')
  {
    match text
    case None => "0"
    case Some(t) =>
      ReplaceDeletes(Trim(t), ',');
      ReplaceAll(Trim(t), ",", "")
  }

  /** The repositories of one trending page, in document order. */
  function Repositories(articles: seq<Article>): seq<Repository> {
    FilterMap(ParseArticle, articles)
  }

  /** The page yields one repository per article with a name link, in document order, and
      none for the others. */
  lemma RepositoriesSelect(articles: seq<Article>)
    ensures var repos, picked := Repositories(articles), Kept(ParseArticle, articles, 0);
      && |repos| == |picked| <= |articles|
      && StrictlyIncreasing(picked)
      && (forall j :: 0 <= j < |picked| ==> repos[j] == ParseArticle(articles[picked[j]]).value)
      && (forall i :: 0 <= i < |articles| ==> (i in picked <==> articles[i].nameHref.Some?))
  {
    FilterMapSelects(ParseArticle, articles, 0);
    assert articles[0..] == articles;
  }

  /** `stylize_repository_info`: the template's placeholders replaced one after the other. */
  function Stylize(repo: Repository): string {
    var description := repo.description.GetOr(NoDescription);
    ReplaceAll(
      ReplaceAll(
        ReplaceAll(
          ReplaceAll(MarkdownFormat, "{title}", repo.name),
          "{stars}", repo.stars),
        "{link}", repo.link),
      "{description}", description)
  }

  /** A placeholder of the form `{name}`. */
  predicate Placeholder(h: string) {
    |h| > 1 && h[0] == '{' && '{' !in h[1..]
  }

  lemma ConcatNine(a: string, b: string, c: string, d: string, e: string, f: string, g: string, h: string, i: string)
    ensures Concat([a, b, c, d, e, f, g, h, i]) == a + b + c + d + e + f + g + h + i
  {
    var ps := [a, b, c, d, e, f, g, h, i];
    assert Concat(ps[9..]) == "";
    assert Concat(ps[8..]) == i + Concat(ps[9..]);
    assert Concat(ps[7..]) == h + Concat(ps[8..]);
    assert Concat(ps[6..]) == g + Concat(ps[7..]);
    assert Concat(ps[5..]) == f + Concat(ps[6..]);
    assert Concat(ps[4..]) == e + Concat(ps[5..]);
    assert Concat(ps[3..]) == d + Concat(ps[4..]);
    assert Concat(ps[2..]) == c + Concat(ps[3..]);
    assert Concat(ps[1..]) == b + Concat(ps[2..]);
    assert Concat(ps) == a + Concat(ps[1..]);
  }

  /** Every piece is the placeholder `h` or lacks `{`, or is another `{name}` placeholder. */
  predicate FillablePieces(pieces: seq<string>, h: string) {
    |h| > 1 && forall i :: 0 <= i < |pieces| ==>
      pieces[i] == h || '{' !in pieces[i] || (Placeholder(pieces[i]) && pieces[i][1] != h[1])
  }

  /** One `replace` over such pieces substitutes exactly the placeholder pieces. */
  lemma FillStep(pieces: seq<string>, h: string, v: string)
    requires Placeholder(h) && FillablePieces(pieces, h)
    ensures ReplaceAll(Concat(pieces), h, v) == Concat(Substitute(pieces, h, v))
  {
    forall i | 0 <= i < |pieces|
      ensures pieces[i] == h || Inert(pieces[i], h)
    {
      if pieces[i] != h && '{' in pieces[i] {
        assert Inert(pieces[i], h);
      }
    }
    ReplacePieces(pieces, h, v);
  }

  /** A template of five `{`-free texts around four distinct `{name}` placeholders, and four
      values for them of which the first three are `{`-free: the last value is put in after
      every placeholder has been replaced, so nothing scans it again. */
  predicate FourFields(ps: seq<string>, hs: seq<string>, vs: seq<string>) {
    && |ps| == 5 && |hs| == 4 && |vs| == 4
    && (forall i :: 0 <= i < 5 ==> '{' !in ps[i])
    && (forall i :: 0 <= i < 3 ==> '{' !in vs[i])
    && (forall i :: 0 <= i < 4 ==> Placeholder(hs[i]))
    && (forall i, j :: 0 <= i < j < 4 ==> hs[i][1] != hs[j][1])
  }

  /** The template with the first `k` placeholders already replaced by their values. */
  function Filled(ps: seq<string>, hs: seq<string>, vs: seq<string>, k: nat): (r: seq<string>)
    requires |ps| == 5 && |hs| == 4 && |vs| == 4
    ensures |r| == 9
  {
    seq(9, i requires 0 <= i < 9 => if i % 2 == 0 then ps[i / 2] else if i / 2 < k then vs[i / 2] else hs[i / 2])
  }

  /** Replacing the next placeholder moves from `k` to `k + 1` filled fields. */
  lemma FillNext(ps: seq<string>, hs: seq<string>, vs: seq<string>, k: nat)
    requires FourFields(ps, hs, vs) && k < 4
    ensures ReplaceAll(Concat(Filled(ps, hs, vs, k)), hs[k], vs[k]) == Concat(Filled(ps, hs, vs, k + 1))
  {
    var pieces, h := Filled(ps, hs, vs, k), hs[k];
    forall i | 0 <= i < 9
      ensures pieces[i] == h <==> i == 2 * k + 1
      ensures pieces[i] == h || '{' !in pieces[i] || (Placeholder(pieces[i]) && pieces[i][1] != h[1])
    {
      var j := i / 2;
      if i % 2 == 0 {
        assert pieces[i] == ps[j] && h[0] == '{';
      } else if j < k {
        assert pieces[i] == vs[j] && h[0] == '{';
      } else if j > k {
        assert pieces[i] == hs[j] && hs[j][1] != h[1];
      }
    }
    FillStep(pieces, h, vs[k]);
    assert Substitute(pieces, h, vs[k]) == Filled(ps, hs, vs, k + 1);
  }

  /** Filling the four placeholders one after the other puts each value in its placeholder's
      place. */
  lemma FillFour(ps: seq<string>, hs: seq<string>, vs: seq<string>)
    requires FourFields(ps, hs, vs)
    ensures ReplaceAll(ReplaceAll(ReplaceAll(ReplaceAll(
              Concat(Filled(ps, hs, vs, 0)), hs[0], vs[0]), hs[1], vs[1]), hs[2], vs[2]), hs[3], vs[3])
         == Concat(Filled(ps, hs, vs, 4))
  {
    FillNext(ps, hs, vs, 0);
    FillNext(ps, hs, vs, 1);
    FillNext(ps, hs, vs, 2);
    FillNext(ps, hs, vs, 3);
  }

  /** The template's fixed texts and its placeholders, in order. */
  const TemplateTexts: seq<string> := ["\n# ", "\n\n**Stars**: ", "\n\n[View Repository](", ")\n\n", "\n"]
  const TemplateFields: seq<string> := ["{title}", "{stars}", "{link}", "{description}"]

  lemma TemplateSplit(vs: seq<string>)
    requires |vs| == 4
    ensures Concat(Filled(TemplateTexts, TemplateFields, vs, 0)) == MarkdownFormat
  {
    var ps, hs := TemplateTexts, TemplateFields;
    assert Filled(ps, hs, vs, 0) == [ps[0], hs[0], ps[1], hs[1], ps[2], hs[2], ps[3], hs[3], ps[4]];
    ConcatNine(ps[0], hs[0], ps[1], hs[1], ps[2], hs[2], ps[3], hs[3], ps[4]);
  }

  lemma TemplateWellFormed(vs: seq<string>)
    requires |vs| == 4 && forall i :: 0 <= i < 3 ==> '{' !in vs[i]
    ensures FourFields(TemplateTexts, TemplateFields, vs)
  {
    var hs := TemplateFields;
    assert Placeholder(hs[0]) && Placeholder(hs[1]) && Placeholder(hs[2]) && Placeholder(hs[3]);
  }

  /** When name, stars and link contain no `{`, the rendering is the template with title,
      stars, link and description in their places (the placeholder text for a missing
      description); the description, filled in last, may hold anything. */
  lemma StylizeShape(repo: Repository)
    requires '{' !in repo.name && '{' !in repo.stars && '{' !in repo.link
    ensures Stylize(repo) ==
      "\n# " + repo.name + "\n\n**Stars**: " + repo.stars + "\n\n[View Repository](" + repo.link + ")\n\n"
      + repo.description.GetOr(NoDescription) + "\n"
  {
    var ps, hs := TemplateTexts, TemplateFields;
    var vs := [repo.name, repo.stars, repo.link, repo.description.GetOr(NoDescription)];
    TemplateWellFormed(vs);
    TemplateSplit(vs);
    FillFour(ps, hs, vs);
    assert Filled(ps, hs, vs, 4) == [ps[0], vs[0], ps[1], vs[1], ps[2], vs[2], ps[3], vs[3], ps[4]];
    ConcatNine(ps[0], vs[0], ps[1], vs[1], ps[2], vs[2], ps[3], vs[3], ps[4]);
  }

  // ---------------------------------------------------------------------------
  // The run over all languages

  /** One language's task: the rendered repositories of its page, or nothing when the fetch
      failed or the page had no repository. */
  function LanguageMarkdowns(fetched: Result<seq<Article>, FetchError>): (r: Option<seq<string>>)
    ensures r.Some? ==> fetched.Ok? && |r.value| == |Repositories(fetched.value)| > 0
    ensures r.Some? ==> r.value == Map(Stylize, Repositories(fetched.value))
    ensures r.Some? <==>
      fetched.Ok? && exists i :: 0 <= i < |fetched.value| && fetched.value[i].nameHref.Some?
  {
    match fetched
    case Err(_) => None
    case Ok(articles) =>
      RepositoriesSelect(articles);
      var markdowns := Map(Stylize, Repositories(articles));
      if |markdowns| > 0 then
        var k := Kept(ParseArticle, articles, 0)[0];
        assert articles[k].nameHref.Some?;
        Some(markdowns)
      else
        assert forall i :: 0 <= i < |articles| ==> i !in Kept(ParseArticle, articles, 0);
        None
  }

  /** One task per language, in spawn order (the order they are awaited in). */
  function Tasks(languages: seq<string>, fetch: string -> Result<seq<Article>, FetchError>): (r: seq<Option<seq<string>>>)
    ensures |r| == |languages|
    ensures forall i :: 0 <= i < |languages| ==> r[i] == LanguageMarkdowns(fetch(languages[i]))
  {
    seq(|languages|, i requires 0 <= i < |languages| => LanguageMarkdowns(fetch(languages[i])))
  }

  /** The collected markdowns are non-empty exactly when some language was processed, since a
      task never yields an empty list; the source's second test is therefore redundant. */
  lemma {:induction false} ProcessedIffMarkdowns(tasks: seq<Option<seq<string>>>)
    requires forall i :: 0 <= i < |tasks| && tasks[i].Some? ==> |tasks[i].value| > 0
    ensures |Present(tasks)| > 0 <==> |Flatten(Present(tasks))| > 0
    decreases |tasks|
  {
    if |tasks| > 0 {
      ProcessedIffMarkdowns(tasks[1..]);
      assert forall i :: 1 <= i < |tasks| ==> tasks[i] == tasks[1..][i - 1];
      var rest := Present(tasks[1..]);
      if tasks[0].Some? {
        assert Present(tasks) == [tasks[0].value] + rest;
        assert Flatten([tasks[0].value] + rest) == tasks[0].value + Flatten(rest) by {
          assert ([tasks[0].value] + rest)[1..] == rest;
        }
      } else {
        assert Present(tasks) == rest;
      }
    }
  }

  /** `run`: all tasks' markdowns in language order, uploaded as one file when any language
      was processed; only the upload can make it fail. */
  function Run(client: StorageClient, languages: seq<string>, fetch: string -> Result<seq<Article>, FetchError>,
               today: string, response: Response): (report: Report<FetchError>)
    ensures report.upload.Some? <==>
      exists i :: 0 <= i < |languages| && LanguageMarkdowns(fetch(languages[i])).Some?
    ensures report.upload.Some? ==>
      report.upload.value == Upload(today + "/github-trending.md", Join(Flatten(Present(Tasks(languages, fetch))), "\n---\n"))
    ensures report.result.Err? <==>
      report.upload.Some? && UploadResult(client, report.upload.value.path, response).Err?
    ensures report.result.Err? ==>
      report.result.error == SupabaseUpload(UploadResult(client, report.upload.value.path, response).error)
  {
    var tasks := Tasks(languages, fetch);
    var markdowns := Flatten(Present(tasks));
    PresentEmptyIff(tasks);
    ProcessedIffMarkdowns(tasks);
    if |Present(tasks)| > 0 && |markdowns| > 0 then
      Store(client, today + "/github-trending.md", Join(markdowns, "\n---\n"), response, (m: string) => SupabaseUpload(m))
    else
      Skipped()
  }

  /** A language whose fetch fails, or whose page has no repository, changes nothing: the run
      is the same as if it had not been configured. */
  lemma LanguageWithoutResultsIsInvisible(client: StorageClient, before: seq<string>, language: string, after: seq<string>,
                                          fetch: string -> Result<seq<Article>, FetchError>, today: string, response: Response)
    requires LanguageMarkdowns(fetch(language)).None?
    ensures Run(client, before + [language] + after, fetch, today, response) == Run(client, before + after, fetch, today, response)
  {
    var a, b := Tasks(before, fetch), Tasks(after, fetch);
    assert Tasks(before + [language] + after, fetch) == a + [None] + b;
    assert Tasks(before + after, fetch) == a + b;
    PresentAppend(a + [None], b);
    PresentAppend(a, [None]);
    PresentAppend(a, b);
    var none: seq<Option<seq<string>>> := [None];
    assert Present(none) == [] by {
      assert none[1..] == [];
    }
    assert Present(a + [None] + b) == Present(a + b);
  }

  /** A single language with a non-empty page uploads its rendered repositories, separated
      by the section rule. */
  lemma SingleLanguageRun(client: StorageClient, language: string, fetch: string -> Result<seq<Article>, FetchError>,
                          today: string, response: Response)
    requires fetch(language).Ok? && |Repositories(fetch(language).value)| > 0
    ensures Run(client, [language], fetch, today, response).upload ==
      Some(Upload(today + "/github-trending.md", Join(Map(Stylize, Repositories(fetch(language).value)), "\n---\n")))
  {
    var t := LanguageMarkdowns(fetch(language));
    assert t.Some?;
    assert Tasks([language], fetch) == [t];
    assert Present([t]) == [t.value];
    assert Flatten([t.value]) == t.value;
  }
}
