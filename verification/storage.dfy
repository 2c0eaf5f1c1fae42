/** The object-storage client: URL construction and the mapping of the HTTP response to
    success or failure. The POST itself is not modelled; its response is given. */
module Storage {
  import opened Wrappers
  import opened Text

  /** The repository holds five copies of the client: the shared one, an older one in the
      Hacker News crate, and private ones in the GitHub, custom-site and xAI crates. They
      build the same URL and send the content the same way; they differ in whether they send
      an `apikey` header besides the bearer token, and in the text of their errors. */
  datatype ClientCopy = Shared | HackerNewsCopy | GithubCopy | CustomSiteCopy | XaiSearchCopy {
    predicate SendsApiKey() {
      this == Shared || this == GithubCopy || this == XaiSearchCopy
    }
  }

  /** A client as its constructor stores it. */
  datatype StorageClient = StorageClient(baseUrl: string, apiKey: string, bucket: string, copy: ClientCopy)

  /** An HTTP request as the client would send it. */
  datatype Request = Request(url: string, headers: seq<(string, string)>, body: string)

  /** The outcome of sending a request: a transport failure, or a response with a status. */
  datatype Response = TransportError(reason: string) | HttpResponse(status: nat, text: string)

  /** `StatusCode::is_success`. */
  predicate IsSuccess(status: nat) {
    200 <= status <= 299
  }

  /** An upload the crawler hands to the client: the object path and the document. */
  datatype Upload = Upload(path: string, content: string)

  /** `SupabaseStorageClient::new`: the base URL loses every trailing slash. */
  function NewClient(baseUrl: string, apiKey: string, bucket: string, copy: ClientCopy): (c: StorageClient)
    ensures c.baseUrl <= baseUrl
    ensures |c.baseUrl| > 0 ==> c.baseUrl[|c.baseUrl| - 1] != '/'
    ensures forall i :: |c.baseUrl| <= i < |baseUrl| ==> baseUrl[i] == '/'
    ensures c.apiKey == apiKey && c.bucket == bucket && c.copy == copy
  {
    StorageClient(TrimEndBy(baseUrl, {'/'}), apiKey, bucket, copy)
  }

  /** The object URL: base, "/object/", bucket, "/", and the path without leading slashes. */
  function ObjectUrl(c: StorageClient, path: string): (url: string)
    ensures var key := TrimStartBy(path, {'/'});
      && |key| <= |url|
      && url == c.baseUrl + "/object/" + c.bucket + "/" + key
      && (|key| > 0 ==> key[0] != '/')
      && key == path[|path| - |key|..]
  {
    c.baseUrl + "/object/" + c.bucket + "/" + TrimStartBy(path, {'/'})
  }

  function Slashes(n: nat): (s: string)
    ensures |s| == n && forall i :: 0 <= i < n ==> s[i] == '/'
  {
    seq(n, _ => '/')
  }

  lemma {:induction false} TrimSlashes(n: nat, path: string)
    ensures TrimStartBy(Slashes(n) + path, {'/'}) == TrimStartBy(path, {'/'})
    decreases n
  {
    var s := Slashes(n) + path;
    if n > 0 {
      assert s[0] == '/';
      assert s[1..] == Slashes(n - 1) + path;
      assert TrimStartBy(s, {'/'}) == TrimStartBy(s[1..], {'/'});
      TrimSlashes(n - 1, path);
    } else {
      assert s == path;
    }
  }

  /** Paths that differ only in how many slashes they start with name the same object. */
  lemma LeadingSlashesIgnored(c: StorageClient, n: nat, path: string)
    ensures ObjectUrl(c, Slashes(n) + path) == ObjectUrl(c, path)
  {
    TrimSlashes(n, path);
  }

  /** Base URLs that differ only in how many slashes they end with give the same client. */
  lemma {:induction false} TrailingSlashesIgnored(baseUrl: string, n: nat, apiKey: string, bucket: string, copy: ClientCopy)
    ensures NewClient(baseUrl + Slashes(n), apiKey, bucket, copy) == NewClient(baseUrl, apiKey, bucket, copy)
    decreases n
  {
    var s := baseUrl + Slashes(n);
    if n > 0 {
      assert s[|s| - 1] == '/';
      assert s[..|s| - 1] == baseUrl + Slashes(n - 1);
      assert TrimEndBy(s, {'/'}) == TrimEndBy(s[..|s| - 1], {'/'});
      TrailingSlashesIgnored(baseUrl, n - 1, apiKey, bucket, copy);
    } else {
      assert s == baseUrl;
    }
  }

  /** The request `upload_file` sends: the content unchanged as the body, with upsert on. */
  function UploadRequest(c: StorageClient, path: string, content: string, contentType: string): (req: Request)
    ensures req.url == ObjectUrl(c, path)
    ensures req.body == content
    ensures ("x-upsert", "true") in req.headers
    ensures ("Authorization", "Bearer " + c.apiKey) in req.headers
    ensures ("Content-Type", contentType) in req.headers
    ensures (exists v :: ("apikey", v) in req.headers) <==> c.copy.SendsApiKey()
  {
    var common := [("Authorization", "Bearer " + c.apiKey), ("Content-Type", contentType), ("x-upsert", "true")];
    var headers := if c.copy.SendsApiKey() then [("apikey", c.apiKey)] + common else common;
    assert headers[|headers| - 3] == ("Authorization", "Bearer " + c.apiKey);
    if c.copy.SendsApiKey() then assert headers[0] == ("apikey", c.apiKey); Request(ObjectUrl(c, path), headers, content)
    else Request(ObjectUrl(c, path), headers, content)
  }

  /** The result `upload_file` reports: success exactly on a success status; a transport
      failure passes its reason on (the GitHub copy prefixes it), and a failure status is
      reported in the copy's words. */
  function UploadResult(c: StorageClient, path: string, response: Response): (r: Result<(), string>)
    ensures r.Ok? <==> response.HttpResponse? && IsSuccess(response.status)
    ensures response.TransportError? && c.copy != GithubCopy ==> r == Err(response.reason)
    ensures response.TransportError? && c.copy == GithubCopy ==> r == Err("HTTP request failed during upload: " + response.reason)
    ensures response.HttpResponse? && !IsSuccess(response.status) ==> r.error == FailureText(c, path, response.status, response.text)
  {
    match response
    case TransportError(reason) =>
      if c.copy == GithubCopy then Err("HTTP request failed during upload: " + reason) else Err(reason)
    case HttpResponse(status, text) =>
      if IsSuccess(status) then Ok(()) else Err(FailureText(c, path, status, text))
  }

  /** The error text of an upload the server refused. The status is written as its number;
      the reason phrase the HTTP library appends is not modelled. */
  function FailureText(c: StorageClient, path: string, status: nat, text: string): string {
    match c.copy
    case Shared => "Failed to upload to Supabase Storage (" + ObjectUrl(c, path) + "): " + text
    case HackerNewsCopy => "Failed to upload to Supabase Storage (" + ObjectUrl(c, path) + "): " + text
    case GithubCopy => "Failed to upload file: " + NatToString(status) + " - " + text
    case CustomSiteCopy => "Failed to upload: " + text
    case XaiSearchCopy => "Upload failed: " + NatToString(status) + " - " + text
  }

  /** All copies of the client agree on the object URL, the body and whether an upload
      succeeded; the shared copy's headers are the older Hacker News copy's with the
      `apikey` header in front, and the two report a refused upload in the same words. */
  lemma CopiesAgree(baseUrl: string, apiKey: string, bucket: string, copy1: ClientCopy, copy2: ClientCopy,
                    path: string, content: string, contentType: string, response: Response)
    ensures var c1, c2 := NewClient(baseUrl, apiKey, bucket, copy1), NewClient(baseUrl, apiKey, bucket, copy2);
      && ObjectUrl(c1, path) == ObjectUrl(c2, path)
      && UploadRequest(c1, path, content, contentType).body == UploadRequest(c2, path, content, contentType).body
      && UploadResult(c1, path, response).Ok? == UploadResult(c2, path, response).Ok?
    ensures var shared, legacy := NewClient(baseUrl, apiKey, bucket, Shared), NewClient(baseUrl, apiKey, bucket, HackerNewsCopy);
      && UploadRequest(shared, path, content, contentType).headers
         == [("apikey", apiKey)] + UploadRequest(legacy, path, content, contentType).headers
      && UploadResult(shared, path, response) == UploadResult(legacy, path, response)
  {
  }
}
