/** The configuration assembled once from the environment. The environment is a map from
    variable names to values; a variable absent from the map is unset. */
module Configuration {
  import opened Wrappers
  import opened Seqs
  import opened Text
  import opened Storage

  datatype SupabaseConfig = SupabaseConfig(url: string, storageUrl: string, key: string, bucket: string)

  datatype Config = Config(
    supabase: SupabaseConfig,
    geminiApiKey: Option<string>,
    xaiApiKey: Option<string>,
    customSiteUrl: Option<string>,
    languages: seq<string>)

  type Env = map<string, string>

  /** `env::var(name).ok()`. */
  function Var(env: Env, name: string): Option<string> {
    if name in env then Some(env[name]) else None
  }

  predicate NonEmpty(s: string) {
    s != ""
  }

  /** The comma-separated language list: each field trimmed, empty ones dropped. */
  function ParseLanguages(raw: string): (r: seq<string>)
    ensures forall i :: 0 <= i < |r| ==> r[i] != "" && ',' !in r[i]
    ensures forall i :: 0 <= i < |r| ==> r[i][0] !in WhiteSpace && r[i][|r[i]| - 1] !in WhiteSpace
    ensures forall i :: 0 <= i < |r| ==> r[i] in Map(Trim, Split(raw, ','))
  {
    var fields := Split(raw, ',');
    var trimmed := Map(Trim, fields);
    forall j | 0 <= j < |trimmed|
      ensures ',' !in trimmed[j]
    {
      TrimChars(fields[j]);
    }
    Filter(NonEmpty, trimmed)
  }

  /** A comma splits the list into the languages on its left followed by those on its right:
      the parsed languages keep the order of the raw string. */
  lemma ParseLanguagesAppend(a: string, b: string)
    ensures ParseLanguages(a + "," + b) == ParseLanguages(a) + ParseLanguages(b)
  {
    assert a + "," + b == a + [','] + b;
    SplitAppend(a, b, ',');
    MapAppend(Trim, Split(a, ','), Split(b, ','));
    FilterAppend(NonEmpty, Map(Trim, Split(a, ',')), Map(Trim, Split(b, ',')));
  }

  /** The list is empty exactly when the raw string holds nothing but commas and whitespace. */
  lemma ParseLanguagesEmptyIff(raw: string)
    ensures ParseLanguages(raw) == [] <==> forall i :: 0 <= i < |raw| ==> raw[i] == ',' || raw[i] in WhiteSpace
  {
    if forall i :: 0 <= i < |raw| ==> raw[i] == ',' || raw[i] in WhiteSpace {
      BlankParsesEmpty(raw);
    } else {
      var i :| 0 <= i < |raw| && raw[i] != ',' && raw[i] !in WhiteSpace;
      WordParsesNonEmpty(raw, i);
    }
  }

  lemma BlankParsesEmpty(raw: string)
    requires forall i :: 0 <= i < |raw| ==> raw[i] == ',' || raw[i] in WhiteSpace
    ensures ParseLanguages(raw) == []
  {
    var fields := Split(raw, ',');
    var trimmed := Map(Trim, fields);
    forall j | 0 <= j < |fields|
      ensures trimmed[j] == ""
    {
      forall k | 0 <= k < |fields[j]|
        ensures fields[j][k] in WhiteSpace
      {
        assert fields[j][k] in raw && fields[j][k] != ',';
      }
      TrimEmptyIff(fields[j]);
    }
    FilterNone(NonEmpty, trimmed);
  }

  lemma WordParsesNonEmpty(raw: string, i: nat)
    requires i < |raw| && raw[i] != ',' && raw[i] !in WhiteSpace
    ensures ParseLanguages(raw) != []
  {
    var fields := Split(raw, ',');
    var trimmed := Map(Trim, fields);
    SplitCovers(raw, ',', i);
    var j :| 0 <= j < |fields| && raw[i] in fields[j];
    var k :| 0 <= k < |fields[j]| && fields[j][k] == raw[i];
    TrimKeeps(fields[j]);
    assert fields[j][k] in Trim(fields[j]);
    assert trimmed[j] != "";
    assert NonEmpty(trimmed[j]) && trimmed[j] in trimmed;
  }

  /** `storage_url`: the project URL without trailing slashes, then "/storage/v1". */
  function StorageUrl(url: string): (r: string)
    ensures |"/storage/v1"| <= |r|
    ensures var base := r[..|r| - |"/storage/v1"|];
      && r[|base|..] == "/storage/v1"
      && base <= url
      && (|base| > 0 ==> base[|base| - 1] != '/')
      && (forall i :: |base| <= i < |url| ==> url[i] == '/')
  {
    TrimEndBy(url, {'/'}) + "/storage/v1"
  }

  /** A storage client built on the storage URL keeps that URL whole (it ends in "v1", not a
      slash), so an object's URL is the project URL without trailing slashes, then
      "/storage/v1/object/", the bucket, "/" and the path without leading slashes. */
  lemma StorageObjectUrl(url: string, key: string, bucket: string, copy: ClientCopy, path: string)
    ensures NewClient(StorageUrl(url), key, bucket, copy).baseUrl == StorageUrl(url)
    ensures ObjectUrl(NewClient(StorageUrl(url), key, bucket, copy), path)
         == TrimEndBy(url, {'/'}) + "/storage/v1" + "/object/" + bucket + "/" + TrimStartBy(path, {'/'})
  {
    var suffix := "/storage/v1";
    var s := TrimEndBy(url, {'/'}) + suffix;
    assert s == StorageUrl(url);
    assert s[|s| - 1] == suffix[|suffix| - 1] == '1';
    TrimEndKeeps(s, {'/'});
  }

  /** `Config::from_env`: fails exactly when one of the three storage variables is unset,
      naming the first one missing; the optional keys and the language list never fail. */
  function FromEnv(env: Env): (r: Result<Config, string>)
    ensures r.Err? <==> "SUPABASE_URL" !in env || "SUPABASE_SERVICE_ROLE_KEY" !in env || "SUPABASE_BUCKET_NAME" !in env
    ensures r.Err? && "SUPABASE_URL" !in env ==> r.error == "SUPABASE_URL must be set"
    ensures r.Err? && "SUPABASE_URL" in env && "SUPABASE_SERVICE_ROLE_KEY" !in env ==>
      r.error == "SUPABASE_SERVICE_ROLE_KEY must be set"
    ensures r.Err? && "SUPABASE_URL" in env && "SUPABASE_SERVICE_ROLE_KEY" in env ==>
      r.error == "SUPABASE_BUCKET_NAME must be set"
    ensures r.Ok? ==>
      && r.value.supabase.url == env["SUPABASE_URL"]
      && r.value.supabase.storageUrl == StorageUrl(env["SUPABASE_URL"])
      && r.value.supabase.key == env["SUPABASE_SERVICE_ROLE_KEY"]
      && r.value.supabase.bucket == env["SUPABASE_BUCKET_NAME"]
      && r.value.geminiApiKey == Var(env, "GEMINI_API_KEY")
      && r.value.xaiApiKey == Var(env, "XAI_API_KEY")
      && r.value.customSiteUrl == Var(env, "CUSTOM_SITE_URL")
      && r.value.languages == (if "LANGUAGES" in env then ParseLanguages(env["LANGUAGES"]) else [])
  {
    if "SUPABASE_URL" !in env then Err("SUPABASE_URL must be set")
    else if "SUPABASE_SERVICE_ROLE_KEY" !in env then Err("SUPABASE_SERVICE_ROLE_KEY must be set")
    else if "SUPABASE_BUCKET_NAME" !in env then Err("SUPABASE_BUCKET_NAME must be set")
    else
      var url := env["SUPABASE_URL"];
      var languages := match Var(env, "LANGUAGES")
        case Some(raw) => ParseLanguages(raw)
        case None => [];
      Ok(Config(
        SupabaseConfig(url, StorageUrl(url), env["SUPABASE_SERVICE_ROLE_KEY"], env["SUPABASE_BUCKET_NAME"]),
        Var(env, "GEMINI_API_KEY"),
        Var(env, "XAI_API_KEY"),
        Var(env, "CUSTOM_SITE_URL"),
        languages))
  }

  /** An unset language variable, or one holding only commas and whitespace, gives an empty
      list rather than an error. */
  lemma NoLanguagesIsNotAnError(env: Env)
    requires "SUPABASE_URL" in env && "SUPABASE_SERVICE_ROLE_KEY" in env && "SUPABASE_BUCKET_NAME" in env
    requires "LANGUAGES" in env ==> forall i :: 0 <= i < |env["LANGUAGES"]| ==> env["LANGUAGES"][i] == ',' || env["LANGUAGES"][i] in WhiteSpace
    ensures FromEnv(env).Ok? && FromEnv(env).value.languages == []
  {
    if "LANGUAGES" in env {
      ParseLanguagesEmptyIff(env["LANGUAGES"]);
    }
  }

  /** Turns an optional value into a result, with the message for the missing case. */
  function Require(value: Option<string>, missing: string): (r: Result<string, string>)
    ensures r.Ok? <==> value.Some?
    ensures r.Ok? ==> r.value == value.value
    ensures r.Err? ==> r.error == missing
  {
    match value
    case Some(v) => Ok(v)
    case None => Err(missing)
  }

  /** `require_gemini_api_key`. */
  function RequireGeminiApiKey(c: Config): (r: Result<string, string>)
    ensures r.Ok? <==> c.geminiApiKey.Some?
    ensures r.Ok? ==> r.value == c.geminiApiKey.value
  {
    Require(c.geminiApiKey, "GEMINI_API_KEY must be set")
  }

  /** `require_xai_api_key`. */
  function RequireXaiApiKey(c: Config): (r: Result<string, string>)
    ensures r.Ok? <==> c.xaiApiKey.Some?
    ensures r.Ok? ==> r.value == c.xaiApiKey.value
  {
    Require(c.xaiApiKey, "XAI_API_KEY must be set")
  }

  /** `require_custom_site_url`. */
  function RequireCustomSiteUrl(c: Config): (r: Result<string, string>)
    ensures r.Ok? <==> c.customSiteUrl.Some?
    ensures r.Ok? ==> r.value == c.customSiteUrl.value
  {
    Require(c.customSiteUrl, "CUSTOM_SITE_URL must be set")
  }

  /** `require_languages`: fails exactly on an empty list, else returns it unchanged. */
  function RequireLanguages(c: Config): (r: Result<seq<string>, string>)
    ensures r.Err? <==> |c.languages| == 0
    ensures r.Ok? ==> r.value == c.languages
  {
    if |c.languages| == 0 then Err("LANGUAGES environment variable must be set and non-empty")
    else Ok(c.languages)
  }
}
