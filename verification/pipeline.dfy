/** The last step every crawler shares: upload one document, or skip the upload. */
module Pipeline {
  import opened Wrappers
  import opened Storage

  /** What a crawler run does: the upload it makes, if any, and its result. */
  datatype Report<E> = Report(upload: Option<Upload>, result: Result<(), E>)

  /** A run that ends without uploading anything and without error. */
  function Skipped<E>(): (r: Report<E>)
    ensures r.upload.None? && r.result.Ok?
  {
    Report(None, Ok(()))
  }

  /** Uploads `content` at `path` and wraps an upload failure into the crawler's error type. */
  function Store<E>(c: StorageClient, path: string, content: string, response: Response, wrap: string -> E): (r: Report<E>)
    ensures r.upload == Some(Upload(path, content))
    ensures r.result.Ok? <==> response.HttpResponse? && IsSuccess(response.status)
    ensures r.result.Err? ==> r.result.error == wrap(UploadResult(c, path, response).error)
  {
    match UploadResult(c, path, response)
    case Ok(_) => Report(Some(Upload(path, content)), Ok(()))
    case Err(message) => Report(Some(Upload(path, content)), Err(wrap(message)))
  }
}
