/** The crawler contract and the manager that runs every registered crawler and folds
    their outcomes into one. The concurrent fan-out (`join_all`) is a sequential map: each
    crawler's outcome is given by `run` and depends on that crawler alone. */
module Crawler {
  import opened Wrappers
  import opened Text

  /** The shared error type, each variant with its message. */
  datatype CrawlerError =
    | HttpRequest(message: string)
    | HtmlParse(message: string)
    | StorageUpload(message: string)
    | ConfigError(message: string)
    | EnvVar(message: string)
    | Api(message: string)
    | Parse(message: string)
    | Io(message: string)

  /** What one `Crawler::run` returns. */
  type Outcome = Result<(), CrawlerError>

  datatype CrawlerManager<T> = CrawlerManager(crawlers: seq<T>)

  /** `CrawlerManager::new`. */
  function NewManager<T>(): (m: CrawlerManager<T>)
    ensures |m.crawlers| == 0
  {
    CrawlerManager([])
  }

  /** `add_crawler`: the new crawler goes last; the others keep their places. */
  function AddCrawler<T>(m: CrawlerManager<T>, crawler: T): (r: CrawlerManager<T>)
    ensures |r.crawlers| == |m.crawlers| + 1
    ensures r.crawlers[|m.crawlers|] == crawler
    ensures forall i :: 0 <= i < |m.crawlers| ==> r.crawlers[i] == m.crawlers[i]
  {
    CrawlerManager(m.crawlers + [crawler])
  }

  /** The number of successful outcomes. */
  function CountOk(outcomes: seq<Outcome>): nat
    decreases |outcomes|
  {
    if |outcomes| == 0 then 0
    else CountOk(outcomes[..|outcomes| - 1]) + (if outcomes[|outcomes| - 1].Ok? then 1 else 0)
  }

  /** The successes are the copies of `Ok(())` among the outcomes. */
  lemma {:induction false} CountOkIsMultiplicity(outcomes: seq<Outcome>)
    ensures CountOk(outcomes) == multiset(outcomes)[Ok(())]
    ensures CountOk(outcomes) <= |outcomes|
    decreases |outcomes|
  {
    if |outcomes| > 0 {
      var init, last := outcomes[..|outcomes| - 1], outcomes[|outcomes| - 1];
      CountOkIsMultiplicity(init);
      if last.Ok? {
        var u: () := last.value;
        assert u == ();
        assert last == Ok(());
      }
      assert outcomes == init + [outcomes[|outcomes| - 1]];
      assert multiset(outcomes) == multiset(init) + multiset{outcomes[|outcomes| - 1]};
    }
  }

  /** The tally does not depend on the order the outcomes arrive in. */
  lemma TallyOrderIndependent(a: seq<Outcome>, b: seq<Outcome>)
    requires multiset(a) == multiset(b)
    ensures CountOk(a) == CountOk(b)
    ensures |a| - CountOk(a) == |b| - CountOk(b)
  {
    CountOkIsMultiplicity(a);
    CountOkIsMultiplicity(b);
    assert |a| == |multiset(a)| == |multiset(b)| == |b|;
  }

  /** The error message `run_all` fails with. */
  function FailureMessage(failed: nat, succeeded: nat): string {
    "Some crawlers failed: " + NatToString(failed) + " failed, " + NatToString(succeeded) + " succeeded"
  }

  /** `run_all`: runs every crawler once, counts successes and failures, and fails, with both
      counts in the message, exactly when some crawler failed. */
  method RunAll<T>(m: CrawlerManager<T>, run: T -> Outcome)
    returns (outcomes: seq<Outcome>, successes: nat, failures: nat, result: Outcome)
    ensures |outcomes| == |m.crawlers|
    ensures forall i :: 0 <= i < |outcomes| ==> outcomes[i] == run(m.crawlers[i])
    ensures successes == multiset(outcomes)[Ok(())]
    ensures successes + failures == |m.crawlers|
    ensures result.Err? <==> failures > 0
    ensures result.Err? <==> exists i :: 0 <= i < |outcomes| && outcomes[i].Err?
    ensures result.Err? ==> result.error == Api(FailureMessage(failures, successes))
  {
    outcomes := seq(|m.crawlers|, i requires 0 <= i < |m.crawlers| => run(m.crawlers[i]));
    successes, failures := 0, 0;
    var i := 0;
    while i < |outcomes|
      invariant 0 <= i <= |outcomes|
      invariant successes == CountOk(outcomes[..i])
      invariant successes + failures == i
      invariant failures > 0 <==> exists k :: 0 <= k < i && outcomes[k].Err?
    {
      assert outcomes[..i + 1][..i] == outcomes[..i];
      match outcomes[i] {
        case Ok(_) => successes := successes + 1;
        case Err(_) => failures := failures + 1;
      }
      i := i + 1;
    }
    assert outcomes[..i] == outcomes;
    CountOkIsMultiplicity(outcomes);
    if failures > 0 {
      result := Err(Api(FailureMessage(failures, successes)));
    } else {
      result := Ok(());
    }
  }
}
