/** The xAI crawler: one chat-completion request asks for a news digest; the first choice's
    message is uploaded as it is, unless it is empty. The request's answer is given. */
module XaiSearch {
  import opened Wrappers
  import opened Text
  import opened Storage
  import opened Pipeline
  import opened Configuration

  /** The answer to the completion request: a transport failure, or a status, the body text
      and the body decoded as a completion (the message content of each choice) or the
      decoding error. */
  datatype Completion =
    | CompletionTransportError(reason: string)
    | CompletionResponse(status: nat, text: string, choices: Result<seq<string>, string>)

  datatype XaiClient = XaiClient(apiKey: string, storage: StorageClient)

  /** `XaiClient::new`, with the crate's own storage client. */
  function NewXaiClient(apiKey: string, supabaseUrl: string, supabaseKey: string, bucket: string): (c: XaiClient)
    ensures c.apiKey == apiKey
    ensures c.storage == NewClient(supabaseUrl, supabaseKey, bucket, XaiSearchCopy)
  {
    XaiClient(apiKey, NewClient(supabaseUrl, supabaseKey, bucket, XaiSearchCopy))
  }

  /** `fetch_news_digest`: a failure status is an error; otherwise the first choice's
      message, or the empty string when there is no choice. */
  function FetchNewsDigest(answer: Completion): (r: Result<string, string>)
    ensures answer.CompletionResponse? && IsSuccess(answer.status) && answer.choices.Ok? ==> r.Ok?
    ensures r.Ok? ==> answer.CompletionResponse? && IsSuccess(answer.status) && answer.choices.Ok?
    ensures r.Ok? && |answer.choices.value| > 0 ==> r.value == answer.choices.value[0]
    ensures r.Ok? && |answer.choices.value| == 0 ==> r.value == ""
    ensures answer.CompletionResponse? && !IsSuccess(answer.status) ==>
      r == Err("Request failed: " + NatToString(answer.status) + " - " + answer.text)
  {
    match answer
    case CompletionTransportError(reason) => Err(reason)
    case CompletionResponse(status, text, choices) =>
      if !IsSuccess(status) then Err("Request failed: " + NatToString(status) + " - " + text)
      else
        match choices
        case Err(e) => Err(e)
        case Ok(contents) => Ok(if |contents| > 0 then contents[0] else "")
  }

  /** `XaiClient::run`: an empty digest is skipped; any other is uploaded verbatim at
      "{today}/xai-news.md"; a failed request or upload is the error. */
  function Run(c: XaiClient, answer: Completion, today: string, response: Response): (r: Report<string>)
    ensures FetchNewsDigest(answer).Err? ==> r == Report(None, Err(FetchNewsDigest(answer).error))
    ensures r.upload.Some? <==> FetchNewsDigest(answer).Ok? && FetchNewsDigest(answer).value != ""
    ensures r.upload.Some? ==> r.upload.value == Upload(today + "/xai-news.md", FetchNewsDigest(answer).value)
    ensures r.result.Err? <==>
      FetchNewsDigest(answer).Err? || (r.upload.Some? && !(response.HttpResponse? && IsSuccess(response.status)))
    ensures r.upload.Some? && r.result.Err? ==> r.result.error == UploadResult(c.storage, today + "/xai-news.md", response).error
  {
    match FetchNewsDigest(answer)
    case Err(e) => Report(None, Err(e))
    case Ok(digest) =>
      if digest == "" then Skipped()
      else Store(c.storage, today + "/xai-news.md", digest, response, (m: string) => m)
  }

  /** An answer without choices, or whose first choice is empty, uploads nothing and succeeds. */
  lemma NoDigestNoUpload(c: XaiClient, status: nat, text: string, contents: seq<string>, today: string, response: Response)
    requires IsSuccess(status)
    requires |contents| == 0 || contents[0] == ""
    ensures Run(c, CompletionResponse(status, text, Ok(contents)), today, response) == Report(None, Ok(()))
  {
  }

  /** `run_xai_search`: the client the entry point builds on the storage URL of
      `SUPABASE_URL` (the source panics when a variable is unset). */
  function EntryClient(env: Env): (c: XaiClient)
    requires "XAI_API_KEY" in env && "SUPABASE_URL" in env && "SUPABASE_SERVICE_ROLE_KEY" in env && "SUPABASE_BUCKET_NAME" in env
    ensures c.apiKey == env["XAI_API_KEY"]
    ensures c.storage.copy.SendsApiKey()
    ensures c.storage.apiKey == env["SUPABASE_SERVICE_ROLE_KEY"] && c.storage.bucket == env["SUPABASE_BUCKET_NAME"]
  {
    NewXaiClient(env["XAI_API_KEY"], StorageUrl(env["SUPABASE_URL"]), env["SUPABASE_SERVICE_ROLE_KEY"], env["SUPABASE_BUCKET_NAME"])
  }

  /** The digest goes to the project URL without trailing slashes, "/storage/v1/object/", the
      bucket and the dated path; a refused upload is reported with its status and text. */
  lemma UploadTarget(env: Env, today: string, status: nat, text: string)
    requires "XAI_API_KEY" in env && "SUPABASE_URL" in env && "SUPABASE_SERVICE_ROLE_KEY" in env && "SUPABASE_BUCKET_NAME" in env
    ensures ObjectUrl(EntryClient(env).storage, today + "/xai-news.md") ==
      TrimEndBy(env["SUPABASE_URL"], {'/'}) + "/storage/v1" + "/object/" + env["SUPABASE_BUCKET_NAME"] + "/"
      + TrimStartBy(today + "/xai-news.md", {'/'})
    ensures !IsSuccess(status) ==>
      UploadResult(EntryClient(env).storage, today + "/xai-news.md", HttpResponse(status, text))
      == Err("Upload failed: " + NatToString(status) + " - " + text)
  {
    StorageObjectUrl(env["SUPABASE_URL"], env["SUPABASE_SERVICE_ROLE_KEY"], env["SUPABASE_BUCKET_NAME"], XaiSearchCopy,
                     today + "/xai-news.md");
  }
}
