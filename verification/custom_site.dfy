/** The custom-site crawler: the page named by `CUSTOM_SITE_URL` is fetched, stripped of its
    tags, cut to a 200-character summary and uploaded under a fixed heading. The page fetch
    and the tag stripping are given. */
module CustomSite {
  import opened Wrappers
  import opened Seqs
  import opened Text
  import opened Storage
  import opened Pipeline
  import opened Configuration

  const SummaryChars: nat := 200

  /** `SiteFetcher::summarize`, a placeholder: the first 200 characters; it never fails. */
  function Summarize(content: string): (r: Result<string, string>)
    ensures r.Ok?
    ensures r.value <= content
    ensures |r.value| == if |content| < SummaryChars then |content| else SummaryChars
    ensures |content| <= SummaryChars ==> r.value == content
  {
    Ok(Take(content, SummaryChars))
  }

  /** The uploaded document. */
  function Markdown(url: string, summary: string): string {
    "# Fetched Content" + "\n" + "\n" + "URL: " + url + "\n" + "\n" + summary
  }

  /** Read line by line, the document is the heading, a blank line, the URL line, a blank
      line and then the summary's lines; the URL can be read back from its line. */
  lemma MarkdownLayout(url: string, summary: string)
    requires '\n' !in url
    ensures Split(Markdown(url, summary), '\n') ==
      ["# Fetched Content", "", "URL: " + url, ""] + Split(summary, '\n')
    ensures Split(Markdown(url, summary), '\n')[2][|"URL: "|..] == url
  {
    var heading, blank, urlLine := "# Fetched Content", "", "URL: " + url;
    assert '\n' !in heading && '\n' !in urlLine;
    SplitFourThenBody(heading, blank, urlLine, blank, summary);
    assert heading + "\n" + blank + "\n" + urlLine + "\n" + blank + "\n" + summary == Markdown(url, summary);
  }

  /** `run_custom_site_crawler`. Without `CUSTOM_SITE_URL` it does nothing; otherwise the
      storage variables must be set (the source panics on a missing one). A failed fetch
      or upload is returned as the error. */
  function Run(env: Env, fetch: string -> Result<string, string>, cleanHtml: string -> string,
               today: string, response: Response): (r: Report<string>)
    requires "CUSTOM_SITE_URL" in env ==>
      "SUPABASE_URL" in env && "SUPABASE_SERVICE_ROLE_KEY" in env && "SUPABASE_BUCKET_NAME" in env
    ensures "CUSTOM_SITE_URL" !in env ==> r == Report(None, Ok(()))
    ensures "CUSTOM_SITE_URL" in env && fetch(env["CUSTOM_SITE_URL"]).Err? ==>
      r == Report(None, Err(fetch(env["CUSTOM_SITE_URL"]).error))
    ensures "CUSTOM_SITE_URL" in env && fetch(env["CUSTOM_SITE_URL"]).Ok? ==>
      var url := env["CUSTOM_SITE_URL"];
      && r.upload == Some(Upload(today + "/custom-site.md", Markdown(url, Take(cleanHtml(fetch(url).value), SummaryChars))))
      && (r.result.Ok? <==> response.HttpResponse? && IsSuccess(response.status))
      && (r.result.Err? ==> r.result.error == UploadResult(Client(env), today + "/custom-site.md", response).error)
  {
    match Var(env, "CUSTOM_SITE_URL")
    case None => Skipped()
    case Some(url) =>
      match fetch(url)
      case Err(e) => Report(None, Err(e))
      case Ok(html) =>
        var summary := Summarize(cleanHtml(html)).value;
        Store(Client(env), today + "/custom-site.md", Markdown(url, summary), response, (m: string) => m)
  }

  /** The crate's own storage client, on the storage URL of `SUPABASE_URL`. */
  function Client(env: Env): StorageClient
    requires "SUPABASE_URL" in env && "SUPABASE_SERVICE_ROLE_KEY" in env && "SUPABASE_BUCKET_NAME" in env
  {
    NewClient(StorageUrl(env["SUPABASE_URL"]), env["SUPABASE_SERVICE_ROLE_KEY"], env["SUPABASE_BUCKET_NAME"], CustomSiteCopy)
  }

  /** The document goes to the project URL without trailing slashes, "/storage/v1/object/",
      the bucket and the dated path; a refused upload is reported with the server's text. */
  lemma UploadTarget(env: Env, today: string, status: nat, text: string)
    requires "SUPABASE_URL" in env && "SUPABASE_SERVICE_ROLE_KEY" in env && "SUPABASE_BUCKET_NAME" in env
    ensures ObjectUrl(Client(env), today + "/custom-site.md") ==
      TrimEndBy(env["SUPABASE_URL"], {'/'}) + "/storage/v1" + "/object/" + env["SUPABASE_BUCKET_NAME"] + "/"
      + TrimStartBy(today + "/custom-site.md", {'/'})
    ensures !IsSuccess(status) ==>
      UploadResult(Client(env), today + "/custom-site.md", HttpResponse(status, text)) == Err("Failed to upload: " + text)
  {
    StorageObjectUrl(env["SUPABASE_URL"], env["SUPABASE_SERVICE_ROLE_KEY"], env["SUPABASE_BUCKET_NAME"], CustomSiteCopy,
                     today + "/custom-site.md");
  }
}
