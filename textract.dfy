/** `extract_text_from_s3` of backend/file_processor.py: start a Textract text
    detection job, poll its status for up to 60 counted attempts, follow the
    result pages on success, and map every failure to one of the function's error messages.

    The Textract service is an oracle: the reply to the start call is a parameter,
    and the replies to the successive `get_document_text_detection` calls are a
    sequence, consumed one per call. The model records the calls as a trace of
    queries, so the position of the next reply is the length of the trace. */
module Textract {
  import opened Strings

  datatype Option<T> = None | Some(value: T)

  function GetOr<T>(o: Option<T>, default: T): T {
    match o
    case Some(v) => v
    case None => default
  }

  /** `max_attempts`. */
  const MaxAttempts: nat := 60
  const Succeeded: string := "SUCCEEDED"
  const Failed: string := "FAILED"
  const InProgress: string := "IN_PROGRESS"
  const Line: string := "LINE"
  const Newline: string := "\n"
  const UnknownError: string := "Unknown error"

  /** What the service configuration at module load left behind: whether the
      Textract client exists, and the value of `S3_BUCKET`. */
  datatype Config = Config(textractReady: bool, bucket: Option<string>)

  /** `if not S3_BUCKET`: unset and empty both count as missing. */
  predicate BucketSet(bucket: Option<string>) {
    bucket.Some? && bucket.value != ""
  }

  /** A block of a Textract result page: its `BlockType` and `Text`. */
  datatype Block = Block(blockType: string, text: string)

  /** The reply to one `get_document_text_detection` call: a result with the
      optional keys `Blocks`, `NextToken` and `StatusMessage`, a `ClientError`
      carrying its message, or any other exception the call raises. */
  datatype Response =
    | Page(jobStatus: string, blocks: Option<seq<Block>>, nextToken: Option<string>, statusMessage: Option<string>)
    | ClientError(cause: string)
    | Raised(message: string)

  /** The reply to `start_document_text_detection`. */
  datatype StartResponse =
    | Started(jobId: string)
    | StartClientError(cause: string)
    | StartRaised(message: string)

  /** One `get_document_text_detection` call: a status poll (`JobId` only) or a
      page request that also passes a `NextToken`. */
  datatype Query = StatusQuery | PageQuery(token: string)

  /** The errors raised inside the polling loop, before the outer handler wraps them. */
  datatype JobError =
    | JobFailed(reason: string)
    | StatusQueryFailed(cause: string)
    | TimedOut
    | Other(message: string)

  /** The errors `extract_text_from_s3` raises. */
  datatype ExtractError =
    | ClientNotInitialised
    | BucketNotSet
    | StartFailed(cause: string)
    | Unexpected(inner: JobError)

  /** The extracted text, an error, or `Exhausted` when the oracle has no reply
      left for a call the function would make. */
  datatype Outcome<E> = Text(text: string) | Failure(error: E) | Exhausted

  /** An outcome and the calls made to reach it, in order. */
  datatype Run<E> = Run(outcome: Outcome<E>, queries: seq<Query>)

  /** How following the `NextToken` pages ended. */
  datatype PageEnd = LastPage | PageClientError(cause: string) | PageRaised(message: string) | PageExhausted

  /** The end of the pagination, the lines collected and the calls made. */
  datatype PageRun = PageRun(end: PageEnd, lines: seq<string>, queries: seq<Query>)

  // ---------------------------------------------------------------------------
  // Messages

  /** The message of each error raised inside the loop. */
  function JobErrorMessage(e: JobError): (r: string)
    ensures !e.Other? ==> |r| > 13 && (r[0], r[13]) == JobHead(e)
  {
    match e
    case JobFailed(reason) => "Textract job failed: " + reason
    case StatusQueryFailed(cause) => "Failed to get Textract job status: " + cause
    case TimedOut => "Textract job timed out" + " - took longer than expected to complete"
    case Other(message) => message
  }

  /** The message of the `RuntimeError` that `extract_text_from_s3` raises. */
  function ErrorMessage(e: ExtractError): (r: string)
    ensures |r| > 0 && r[0] == Head(e)
  {
    match e
    case ClientNotInitialised =>
      "Textract client not initialized." + " This code must run in the AWS sandbox with proper credentials."
    case BucketNotSet => "S3_BUCKET environment variable not set." + " This code must run in the AWS sandbox."
    case StartFailed(cause) => "Failed to start Textract job: " + cause
    case Unexpected(inner) => "Unexpected error during text extraction: " + JobErrorMessage(inner)
  }

  /** Errors that are not the message of a foreign exception passed through. */
  predicate Named(e: ExtractError) {
    !(e.Unexpected? && e.inner.Other?)
  }

  // ---------------------------------------------------------------------------
  // Blocks

  function BlocksOf(blocks: Option<seq<Block>>): seq<Block> {
    GetOr(blocks, [])
  }

  /** The `Text` of the `LINE` blocks, in order. */
  function LineTexts(bs: seq<Block>): (r: seq<string>)
    ensures |r| <= |bs|
    decreases |bs|
  {
    if bs == [] then []
    else
      var last := bs[|bs| - 1];
      LineTexts(bs[..|bs| - 1]) + (if last.blockType == Line then [last.text] else [])
  }

  /** The texts of a list of blocks, whatever their type. */
  function Texts(bs: seq<Block>): (r: seq<string>)
    ensures |r| == |bs| && forall k :: 0 <= k < |bs| ==> r[k] == bs[k].text
  {
    seq(|bs|, k requires 0 <= k < |bs| => bs[k].text)
  }

  // ---------------------------------------------------------------------------
  // The calls, as functions of the replies

  /** The `while 'NextToken' in result` loop: `more` holds the token of the
      last page, if it had one. */
  function Paginate(rs: seq<Response>, lines: seq<string>, queries: seq<Query>, more: Option<string>): (r: PageRun)
    requires |queries| <= |rs|
    ensures |queries| <= |r.queries| <= |rs| && r.queries[..|queries|] == queries
    decreases |rs| - |queries|
  {
    if more.None? then PageRun(LastPage, lines, queries)
    else if |queries| == |rs| then PageRun(PageExhausted, lines, queries)
    else
      var qs := queries + [PageQuery(more.value)];
      match rs[|queries|]
      case ClientError(cause) => PageRun(PageClientError(cause), lines, qs)
      case Raised(message) => PageRun(PageRaised(message), lines, qs)
      case Page(_, blocks, next, _) =>
        var r := Paginate(rs, lines + LineTexts(BlocksOf(blocks)), qs, next);
        PrefixOfPrefix(queries, qs, r.queries);
        r
  }

  lemma PrefixOfPrefix<T>(a: seq<T>, b: seq<T>, c: seq<T>)
    requires |a| <= |b| <= |c| && c[..|b|] == b && b[..|a|] == a
    ensures c[..|a|] == a
  {
    assert c[..|a|] == c[..|b|][..|a|];
  }

  /** The `while attempt < max_attempts` loop, from the given attempt count and
      the calls made so far. */
  function Poll(rs: seq<Response>, attempt: nat, queries: seq<Query>): (r: Run<JobError>)
    requires |queries| <= |rs|
    ensures |queries| <= |r.queries| <= |rs| && r.queries[..|queries|] == queries
    ensures attempt < MaxAttempts && |queries| < |rs| ==> |queries| < |r.queries|
    decreases |rs| - |queries|
  {
    if attempt >= MaxAttempts then Run(Failure(TimedOut), queries)
    else if |queries| == |rs| then Run(Exhausted, queries)
    else
      var qs := queries + [StatusQuery];
      match rs[|queries|]
      case ClientError(cause) =>
        if attempt < MaxAttempts - 1 then Poll(rs, attempt + 1, qs)
        else Run(Failure(StatusQueryFailed(cause)), qs)
      case Raised(message) => Run(Failure(Other(message)), qs)
      case Page(status, blocks, next, statusMessage) =>
        if status == Succeeded then
          var p := Paginate(rs, LineTexts(BlocksOf(blocks)), qs, next);
          PrefixOfPrefix(queries, qs, p.queries);
          match p.end
          case LastPage => Run(Text(Join(Newline, p.lines)), p.queries)
          case PageClientError(cause) =>
            if attempt < MaxAttempts - 1 then Poll(rs, attempt + 1, p.queries)
            else Run(Failure(StatusQueryFailed(cause)), p.queries)
          case PageRaised(message) => Run(Failure(Other(message)), p.queries)
          case PageExhausted => Run(Exhausted, p.queries)
        else if status == Failed then Run(Failure(JobFailed(GetOr(statusMessage, UnknownError))), qs)
        else if status == InProgress then Poll(rs, attempt + 1, qs)
        else Poll(rs, attempt, qs)
  }

  /** The outer handler: everything but the start error is wrapped. */
  function Wrap(o: Outcome<JobError>): Outcome<ExtractError> {
    match o
    case Text(t) => Text(t)
    case Failure(e) => Failure(Unexpected(e))
    case Exhausted => Exhausted
  }

  /** `extract_text_from_s3(key)`. */
  function Extract(config: Config, start: StartResponse, rs: seq<Response>): (r: Run<ExtractError>)
    ensures r.queries == [] <==> !config.textractReady || !BucketSet(config.bucket) || !start.Started? || rs == []
    ensures r.outcome.Failure? && r.queries != [] ==> r.outcome.error.Unexpected?
  {
    if !config.textractReady then Run(Failure(ClientNotInitialised), [])
    else if !BucketSet(config.bucket) then Run(Failure(BucketNotSet), [])
    else match start
      case StartClientError(cause) => Run(Failure(StartFailed(cause)), [])
      case StartRaised(message) => Run(Failure(Unexpected(Other(message))), [])
      case Started(_) =>
        var p := Poll(rs, 0, []);
        Run(Wrap(p.outcome), p.queries)
  }

  // ---------------------------------------------------------------------------
  // Properties

  /** The first character of each kind of message. */
  function Head(e: ExtractError): char {
    match e
    case ClientNotInitialised => 'T'
    case BucketNotSet => 'S'
    case StartFailed(_) => 'F'
    case Unexpected(_) => 'U'
  }

  lemma MessageHead(e: ExtractError)
    ensures |ErrorMessage(e)| > 0 && ErrorMessage(e)[0] == Head(e)
  {
    match e
    case ClientNotInitialised =>
      HeadOf("Textract client not initialized.", " This code must run in the AWS sandbox with proper credentials.");
    case BucketNotSet =>
      HeadOf("S3_BUCKET environment variable not set.", " This code must run in the AWS sandbox.");
    case StartFailed(cause) => HeadOf("Failed to start Textract job: ", cause);
    case Unexpected(inner) => HeadOf("Unexpected error during text extraction: ", JobErrorMessage(inner));
  }

  /** The characters at positions 0 and 13 of each kind of message raised inside the loop. */
  function JobHead(e: JobError): (char, char)
    requires !e.Other?
  {
    match e
    case JobFailed(_) => ('T', 'f')
    case StatusQueryFailed(_) => ('F', ' ')
    case TimedOut => ('T', 't')
  }

  lemma JobMessageHead(e: JobError)
    requires !e.Other?
    ensures |JobErrorMessage(e)| > 13 && (JobErrorMessage(e)[0], JobErrorMessage(e)[13]) == JobHead(e)
  {
    match e
    case JobFailed(reason) => HeadOf("Textract job failed: ", reason);
    case StatusQueryFailed(cause) => HeadOf("Failed to get Textract job status: ", cause);
    case TimedOut => HeadOf("Textract job timed out", " - took longer than expected to complete");
  }

  lemma HeadOf(p: string, a: string)
    requires |p| > 13
    ensures |p + a| > 13 && (p + a)[0] == p[0] && (p + a)[13] == p[13]
  {
  }

  /** Distinct error kinds give distinct messages, and each message determines its
      payload, except where a foreign exception's own message is passed through. */
  lemma ErrorMessageInjective(e1: ExtractError, e2: ExtractError)
    requires Named(e1) && Named(e2)
    requires ErrorMessage(e1) == ErrorMessage(e2)
    ensures e1 == e2
  {
    MessageHead(e1);
    MessageHead(e2);
    if e1.StartFailed? && e2.StartFailed? {
      SamePrefix("Failed to start Textract job: ", e1.cause, e2.cause);
    } else if e1.Unexpected? && e2.Unexpected? {
      SamePrefix("Unexpected error during text extraction: ", JobErrorMessage(e1.inner), JobErrorMessage(e2.inner));
      JobErrorMessageInjective(e1.inner, e2.inner);
    }
  }

  lemma JobErrorMessageInjective(e1: JobError, e2: JobError)
    requires !e1.Other? && !e2.Other?
    requires JobErrorMessage(e1) == JobErrorMessage(e2)
    ensures e1 == e2
  {
    JobMessageHead(e1);
    JobMessageHead(e2);
    if e1.JobFailed? && e2.JobFailed? {
      SamePrefix("Textract job failed: ", e1.reason, e2.reason);
    } else if e1.StatusQueryFailed? && e2.StatusQueryFailed? {
      SamePrefix("Failed to get Textract job status: ", e1.cause, e2.cause);
    }
  }

  lemma SamePrefix(p: string, a: string, b: string)
    requires p + a == p + b
    ensures a == b
  {
    assert a == (p + a)[|p|..];
    assert b == (p + b)[|p|..];
  }

  lemma {:induction false} LineTextsAppend(a: seq<Block>, b: seq<Block>)
    ensures LineTexts(a + b) == LineTexts(a) + LineTexts(b)
    decreases |b|
  {
    if b != [] {
      var c := a + b;
      assert c[..|c| - 1] == a + b[..|b| - 1];
      LineTextsAppend(a, b[..|b| - 1]);
    } else {
      assert a + b == a;
    }
  }

  /** Only `LINE` blocks contribute: a page of lines gives all its texts, a page
      without lines gives nothing. */
  lemma {:induction false} LineTextsSelects(bs: seq<Block>)
    ensures (forall k :: 0 <= k < |bs| ==> bs[k].blockType == Line) ==> LineTexts(bs) == Texts(bs)
    ensures (forall k :: 0 <= k < |bs| ==> bs[k].blockType != Line) ==> LineTexts(bs) == []
    decreases |bs|
  {
    if bs != [] {
      var init := bs[..|bs| - 1];
      LineTextsSelects(init);
      assert forall k :: 0 <= k < |init| ==> init[k] == bs[k];
      if forall k :: 0 <= k < |bs| ==> bs[k].blockType == Line {
        assert Texts(bs) == Texts(init) + [bs[|bs| - 1].text];
      }
    }
  }

  /** `n` status polls. */
  function StatusQueries(n: nat): (r: seq<Query>)
    ensures |r| == n && forall k :: 0 <= k < n ==> r[k] == StatusQuery
  {
    seq(n, k => StatusQuery)
  }

  predicate IsStatus(r: Response, status: string) {
    r.Page? && r.jobStatus == status
  }

  /** A status other than the three the loop tests for. */
  predicate Unrecognised(r: Response) {
    r.Page? && r.jobStatus != Succeeded && r.jobStatus != Failed && r.jobStatus != InProgress
  }

  /** Each `IN_PROGRESS` reply costs exactly one attempt: after `MaxAttempts - attempt`
      of them in a row the loop ends with the timeout, having made one call per reply. */
  lemma {:induction false} InProgressTimesOut(rs: seq<Response>, attempt: nat, queries: seq<Query>)
    requires attempt <= MaxAttempts && |queries| + (MaxAttempts - attempt) <= |rs|
    requires forall k :: |queries| <= k < |queries| + (MaxAttempts - attempt) ==> IsStatus(rs[k], InProgress)
    ensures Poll(rs, attempt, queries) == Run(Failure(TimedOut), queries + StatusQueries(MaxAttempts - attempt))
    decreases MaxAttempts - attempt
  {
    if attempt < MaxAttempts {
      var qs := queries + [StatusQuery];
      assert IsStatus(rs[|queries|], InProgress);
      InProgressTimesOut(rs, attempt + 1, qs);
      assert qs + StatusQueries(MaxAttempts - attempt - 1) == queries + StatusQueries(MaxAttempts - attempt);
    } else {
      assert queries + StatusQueries(0) == queries;
    }
  }

  /** An unrecognised status costs no attempt: a run of such replies is polled to
      the end of the replies and the loop never finishes on its own. */
  lemma {:induction false} UnrecognisedNeverFinishes(rs: seq<Response>, attempt: nat, queries: seq<Query>)
    requires attempt < MaxAttempts && |queries| <= |rs|
    requires forall k :: |queries| <= k < |rs| ==> Unrecognised(rs[k])
    ensures Poll(rs, attempt, queries) == Run(Exhausted, queries + StatusQueries(|rs| - |queries|))
    decreases |rs| - |queries|
  {
    if |queries| < |rs| {
      var qs := queries + [StatusQuery];
      assert Unrecognised(rs[|queries|]);
      UnrecognisedNeverFinishes(rs, attempt, qs);
      assert qs + StatusQueries(|rs| - |qs|) == queries + StatusQueries(|rs| - |queries|);
    } else {
      assert queries + StatusQueries(0) == queries;
    }
  }

  /** One reply with an unrecognised status: the loop polls again with the same attempt count. */
  lemma UnrecognisedPollsAgain(rs: seq<Response>, attempt: nat, queries: seq<Query>)
    requires attempt < MaxAttempts && |queries| < |rs| && Unrecognised(rs[|queries|])
    ensures Poll(rs, attempt, queries) == Poll(rs, attempt, queries + [StatusQuery])
  {
  }

  /** A `FAILED` reply ends the loop at once with its `StatusMessage`, or
      `'Unknown error'`; no further call is made. */
  lemma FailedEndsAtOnce(rs: seq<Response>, attempt: nat, queries: seq<Query>)
    requires attempt < MaxAttempts && |queries| < |rs| && IsStatus(rs[|queries|], Failed)
    ensures Poll(rs, attempt, queries) ==
      Run(Failure(JobFailed(GetOr(rs[|queries|].statusMessage, UnknownError))), queries + [StatusQuery])
  {
  }

  /** A `ClientError` while polling costs one attempt and re-polls, and fails with
      the status error when it comes at the last attempt. */
  lemma ClientErrorRetries(rs: seq<Response>, attempt: nat, queries: seq<Query>)
    requires attempt < MaxAttempts && |queries| < |rs| && rs[|queries|].ClientError?
    ensures attempt < MaxAttempts - 1 ==> Poll(rs, attempt, queries) == Poll(rs, attempt + 1, queries + [StatusQuery])
    ensures attempt == MaxAttempts - 1 ==>
      Poll(rs, attempt, queries) == Run(Failure(StatusQueryFailed(rs[|queries|].cause)), queries + [StatusQuery])
  {
  }

  // Pages after a `SUCCEEDED` reply

  /** A chain of result pages: each but the last carries a `NextToken`, the last none. */
  predicate Chain(pages: seq<Response>) {
    pages != [] &&
    (forall k :: 0 <= k < |pages| ==> pages[k].Page?) &&
    (forall k :: 0 <= k < |pages| ==> (pages[k].nextToken.Some? <==> k < |pages| - 1))
  }

  /** A chain cut off before its end: every page carries a `NextToken`. */
  predicate OpenChain(pages: seq<Response>) {
    forall k :: 0 <= k < |pages| ==> pages[k].Page? && pages[k].nextToken.Some?
  }

  /** The lines of the pages, page by page. */
  function ChainLines(pages: seq<Response>): seq<string>
    requires forall k :: 0 <= k < |pages| ==> pages[k].Page?
  {
    if pages == [] then [] else LineTexts(BlocksOf(pages[0].blocks)) + ChainLines(pages[1..])
  }

  /** The page requests that fetch `pages`: the first passes `token`, each later one
      the `NextToken` of the page before it. */
  function ChainQueries(token: string, pages: seq<Response>): (r: seq<Query>)
    requires forall k :: 0 <= k < |pages| - 1 ==> pages[k].Page? && pages[k].nextToken.Some?
    ensures |r| == |pages|
    decreases |pages|
  {
    if pages == [] then []
    else if |pages| == 1 then [PageQuery(token)]
    else [PageQuery(token)] + ChainQueries(pages[0].nextToken.value, pages[1..])
  }

  /** Following a chain of pages collects the lines of every page in order and
      makes exactly one call per `NextToken` received. */
  lemma {:induction false} PaginateChain(rs: seq<Response>, lines: seq<string>, queries: seq<Query>, token: string, pages: seq<Response>)
    requires |queries| + |pages| <= |rs| && rs[|queries|..|queries| + |pages|] == pages
    requires Chain(pages)
    ensures Paginate(rs, lines, queries, Some(token)) ==
      PageRun(LastPage, lines + ChainLines(pages), queries + ChainQueries(token, pages))
    decreases |pages|
  {
    assert rs[|queries|] == pages[0];
    var qs := queries + [PageQuery(token)];
    var next := pages[0].nextToken;
    var more := lines + LineTexts(BlocksOf(pages[0].blocks));
    if |pages| == 1 {
      assert ChainLines(pages) == LineTexts(BlocksOf(pages[0].blocks)) + ChainLines([]);
      assert more == lines + ChainLines(pages);
    } else {
      var rest := pages[1..];
      assert rs[|qs|..|qs| + |rest|] == rest;
      assert forall k :: 0 <= k < |rest| ==> rest[k] == pages[k + 1];
      PaginateChain(rs, more, qs, next.value, rest);
      ConcatAssoc(lines, LineTexts(BlocksOf(pages[0].blocks)), ChainLines(rest));
      ConcatAssoc(queries, [PageQuery(token)], ChainQueries(next.value, rest));
    }
  }

  /** On `SUCCEEDED` without a `NextToken`, the result is the `'\n'`-join of the
      `LINE` texts of that one reply. */
  lemma SucceededSinglePage(rs: seq<Response>, attempt: nat, queries: seq<Query>)
    requires attempt < MaxAttempts && |queries| < |rs|
    requires IsStatus(rs[|queries|], Succeeded) && rs[|queries|].nextToken.None?
    ensures Poll(rs, attempt, queries) ==
      Run(Text(Join(Newline, LineTexts(BlocksOf(rs[|queries|].blocks)))), queries + [StatusQuery])
  {
  }

  /** On `SUCCEEDED` with a `NextToken`, the result is the `'\n'`-join of the `LINE`
      texts of that reply and of every page after it, in order, and one page
      request is made per `NextToken` received. */
  lemma SucceededCollectsAllPages(rs: seq<Response>, attempt: nat, queries: seq<Query>, pages: seq<Response>)
    requires attempt < MaxAttempts && |queries| + 1 + |pages| <= |rs|
    requires IsStatus(rs[|queries|], Succeeded) && rs[|queries|].nextToken.Some?
    requires rs[|queries| + 1..|queries| + 1 + |pages|] == pages && Chain(pages)
    ensures Poll(rs, attempt, queries) ==
      Run(Text(Join(Newline, LineTexts(BlocksOf(rs[|queries|].blocks)) + ChainLines(pages))),
          queries + [StatusQuery] + ChainQueries(rs[|queries|].nextToken.value, pages))
  {
    var first := rs[|queries|];
    PaginateChain(rs, LineTexts(BlocksOf(first.blocks)), queries + [StatusQuery], first.nextToken.value, pages);
  }

  /** A `ClientError` while following the pages costs one attempt and starts polling
      again, with the lines collected so far thrown away. */
  lemma {:induction false} PaginationErrorRestarts(rs: seq<Response>, lines: seq<string>, queries: seq<Query>, token: string, pages: seq<Response>)
    requires |queries| + |pages| < |rs| && rs[|queries|..|queries| + |pages|] == pages
    requires OpenChain(pages) && rs[|queries| + |pages|].ClientError?
    ensures Paginate(rs, lines, queries, Some(token)).end == PageClientError(rs[|queries| + |pages|].cause)
    ensures |Paginate(rs, lines, queries, Some(token)).queries| == |queries| + |pages| + 1
    decreases |pages|
  {
    if pages != [] {
      assert rs[|queries|] == pages[0];
      var qs := queries + [PageQuery(token)];
      var rest := pages[1..];
      assert rs[|qs|..|qs| + |rest|] == rest;
      assert forall k :: 0 <= k < |rest| ==> rest[k] == pages[k + 1];
      PaginationErrorRestarts(rs, lines + LineTexts(BlocksOf(pages[0].blocks)), qs, pages[0].nextToken.value, rest);
    }
  }

  /** The same, seen from the polling loop: the next poll starts from nothing. */
  lemma SucceededThenClientError(rs: seq<Response>, attempt: nat, queries: seq<Query>, pages: seq<Response>)
    requires attempt < MaxAttempts - 1 && |queries| + 1 + |pages| < |rs|
    requires IsStatus(rs[|queries|], Succeeded) && rs[|queries|].nextToken.Some?
    requires rs[|queries| + 1..|queries| + 1 + |pages|] == pages
    requires OpenChain(pages) && rs[|queries| + 1 + |pages|].ClientError?
    ensures var p := Paginate(rs, LineTexts(BlocksOf(rs[|queries|].blocks)), queries + [StatusQuery], rs[|queries|].nextToken);
      Poll(rs, attempt, queries) == Poll(rs, attempt + 1, p.queries)
  {
    PaginationErrorRestarts(rs, LineTexts(BlocksOf(rs[|queries|].blocks)), queries + [StatusQuery],
      rs[|queries|].nextToken.value, pages);
  }

  /** On the last attempt such an error is final: it fails with the status error
      carrying the page request's cause. */
  lemma SucceededThenClientErrorAtLast(rs: seq<Response>, attempt: nat, queries: seq<Query>, pages: seq<Response>)
    requires attempt == MaxAttempts - 1 && |queries| + 1 + |pages| < |rs|
    requires IsStatus(rs[|queries|], Succeeded) && rs[|queries|].nextToken.Some?
    requires rs[|queries| + 1..|queries| + 1 + |pages|] == pages
    requires OpenChain(pages) && rs[|queries| + 1 + |pages|].ClientError?
    ensures Poll(rs, attempt, queries).outcome == Failure(StatusQueryFailed(rs[|queries| + 1 + |pages|].cause))
  {
    PaginationErrorRestarts(rs, LineTexts(BlocksOf(rs[|queries|].blocks)), queries + [StatusQuery],
      rs[|queries|].nextToken.value, pages);
  }

  // The attempt bound

  function CountPolls(qs: seq<Query>): nat
    decreases |qs|
  {
    if qs == [] then 0 else CountPolls(qs[..|qs| - 1]) + (if qs[|qs| - 1] == StatusQuery then 1 else 0)
  }

  lemma {:induction false} CountPollsAppend(a: seq<Query>, b: seq<Query>)
    ensures CountPolls(a + b) == CountPolls(a) + CountPolls(b)
    decreases |b|
  {
    if b == [] {
      assert a + b == a;
    } else {
      assert (a + b)[..|a + b| - 1] == a + b[..|b| - 1];
      CountPollsAppend(a, b[..|b| - 1]);
    }
  }

  /** Following the pages makes page requests only. */
  lemma {:induction false} PaginateMakesNoPolls(rs: seq<Response>, lines: seq<string>, queries: seq<Query>, more: Option<string>)
    requires |queries| <= |rs|
    ensures var r := Paginate(rs, lines, queries, more).queries;
      CountPolls(r[|queries|..]) == 0
    decreases |rs| - |queries|
  {
    var r := Paginate(rs, lines, queries, more).queries;
    if more.Some? && |queries| < |rs| {
      var qs := queries + [PageQuery(more.value)];
      assert qs[|queries|..] == [PageQuery(more.value)];
      assert CountPolls([PageQuery(more.value)]) == 0 by {
        assert [PageQuery(more.value)][..0] == [];
      }
      if rs[|queries|].Page? {
        var rt := rs[|queries|];
        PaginateMakesNoPolls(rs, lines + LineTexts(BlocksOf(rt.blocks)), qs, rt.nextToken);
        assert r[|queries|..] == [PageQuery(more.value)] + r[|qs|..];
        CountPollsAppend([PageQuery(more.value)], r[|qs|..]);
      }
    } else {
      assert r[|queries|..] == [];
    }
  }

  lemma CountPollsSplit(r: seq<Query>, q: seq<Query>, q2: seq<Query>)
    requires |q| <= |q2| <= |r| && r[..|q2|] == q2
    ensures CountPolls(r[|q|..]) == CountPolls(q2[|q|..]) + CountPolls(r[|q2|..])
  {
    assert r[|q|..] == q2[|q|..] + r[|q2|..];
    CountPollsAppend(q2[|q|..], r[|q2|..]);
  }

  lemma OnePoll(queries: seq<Query>)
    ensures CountPolls((queries + [StatusQuery])[|queries|..]) == 1
  {
    assert (queries + [StatusQuery])[|queries|..] == [StatusQuery];
    assert [StatusQuery][..0] == [];
  }

  /** A successful status poll and the page requests after it count as one poll. */
  lemma OnePollThenPages(rs: seq<Response>, queries: seq<Query>)
    requires |queries| < |rs| && rs[|queries|].Page?
    ensures CountPolls(SuccessPages(rs, queries).queries[|queries|..]) == 1
  {
    var qs := queries + [StatusQuery];
    var rt := rs[|queries|];
    var r := SuccessPages(rs, queries).queries;
    PaginateMakesNoPolls(rs, LineTexts(BlocksOf(rt.blocks)), qs, rt.nextToken);
    OnePoll(queries);
    CountPollsSplit(r, queries, qs);
  }

  /** When no reply carries an unrecognised status, the loop makes at most
      `MaxAttempts - attempt` status polls. */
  lemma {:induction false} PollsBounded(rs: seq<Response>, attempt: nat, queries: seq<Query>)
    requires |queries| <= |rs| && attempt <= MaxAttempts
    requires forall k :: 0 <= k < |rs| ==> !Unrecognised(rs[k])
    ensures CountPolls(Poll(rs, attempt, queries).queries[|queries|..]) <= MaxAttempts - attempt
    decreases |rs| - |queries|, 1
  {
    var r := Poll(rs, attempt, queries).queries;
    if attempt < MaxAttempts && |queries| < |rs| {
      var rt := rs[|queries|];
      assert !Unrecognised(rt);
      if (rt.ClientError? && attempt < MaxAttempts - 1) || IsStatus(rt, InProgress) {
        PollsBoundedOnRetry(rs, attempt, queries);
      } else if IsStatus(rt, Succeeded) {
        PollsBoundedAfterSuccess(rs, attempt, queries);
      } else {
        PollStops(rs, attempt, queries);
        OnePoll(queries);
      }
    } else {
      assert r[|queries|..] == [];
    }
  }

  /** The retrying cases of `PollsBounded`: one poll, then the polls of the retry. */
  lemma {:induction false} PollsBoundedOnRetry(rs: seq<Response>, attempt: nat, queries: seq<Query>)
    requires |queries| < |rs| && attempt < MaxAttempts
    requires (rs[|queries|].ClientError? && attempt < MaxAttempts - 1) || IsStatus(rs[|queries|], InProgress)
    requires forall k :: 0 <= k < |rs| ==> !Unrecognised(rs[k])
    ensures CountPolls(Poll(rs, attempt, queries).queries[|queries|..]) <= MaxAttempts - attempt
    decreases |rs| - |queries|, 0
  {
    var qs := queries + [StatusQuery];
    var r := Poll(rs, attempt, queries).queries;
    PollRetries(rs, attempt, queries);
    PollsBounded(rs, attempt + 1, qs);
    OnePoll(queries);
    CountPollsSplit(r, queries, qs);
  }

  /** The `SUCCEEDED` case of `PollsBounded`: one poll, the page requests, and
      the polls of a retry after a failed page request. */
  lemma {:induction false} PollsBoundedAfterSuccess(rs: seq<Response>, attempt: nat, queries: seq<Query>)
    requires |queries| < |rs| && attempt < MaxAttempts && IsStatus(rs[|queries|], Succeeded)
    requires forall k :: 0 <= k < |rs| ==> !Unrecognised(rs[k])
    ensures CountPolls(Poll(rs, attempt, queries).queries[|queries|..]) <= MaxAttempts - attempt
    decreases |rs| - |queries|, 0
  {
    var r := Poll(rs, attempt, queries).queries;
    var p := SuccessPages(rs, queries);
    OnePollThenPages(rs, queries);
    PollOnSuccess(rs, attempt, queries);
    if p.end.PageClientError? && attempt < MaxAttempts - 1 {
      assert r == Poll(rs, attempt + 1, p.queries).queries;
      PollsBounded(rs, attempt + 1, p.queries);
      CountPollsSplit(r, queries, p.queries);
    } else {
      assert r == p.queries;
    }
  }

  /** The page requests that follow a `SUCCEEDED` reply. */
  function SuccessPages(rs: seq<Response>, queries: seq<Query>): (p: PageRun)
    requires |queries| < |rs| && rs[|queries|].Page?
    ensures |queries| < |p.queries| <= |rs| && p.queries[..|queries| + 1] == queries + [StatusQuery]
  {
    var rt := rs[|queries|];
    Paginate(rs, LineTexts(BlocksOf(rt.blocks)), queries + [StatusQuery], rt.nextToken)
  }

  /** A `ClientError` before the last attempt, or `IN_PROGRESS`, re-polls with one more attempt. */
  lemma PollRetries(rs: seq<Response>, attempt: nat, queries: seq<Query>)
    requires attempt < MaxAttempts && |queries| < |rs|
    requires (rs[|queries|].ClientError? && attempt < MaxAttempts - 1) || IsStatus(rs[|queries|], InProgress)
    ensures Poll(rs, attempt, queries) == Poll(rs, attempt + 1, queries + [StatusQuery])
  {
  }

  /** After `SUCCEEDED` the loop ends as the pages end, unless a page request fails
      before the last attempt, which re-polls. */
  lemma PollOnSuccess(rs: seq<Response>, attempt: nat, queries: seq<Query>)
    requires attempt < MaxAttempts && |queries| < |rs| && IsStatus(rs[|queries|], Succeeded)
    ensures var p := SuccessPages(rs, queries);
      Poll(rs, attempt, queries) ==
        match p.end
        case LastPage => Run(Text(Join(Newline, p.lines)), p.queries)
        case PageClientError(cause) =>
          if attempt < MaxAttempts - 1 then Poll(rs, attempt + 1, p.queries)
          else Run(Failure(StatusQueryFailed(cause)), p.queries)
        case PageRaised(message) => Run(Failure(Other(message)), p.queries)
        case PageExhausted => Run(Exhausted, p.queries)
  {
  }

  /** Any other recognised reply ends the loop after its one poll. */
  lemma PollStops(rs: seq<Response>, attempt: nat, queries: seq<Query>)
    requires attempt < MaxAttempts && |queries| < |rs|
    requires !Unrecognised(rs[|queries|]) && !IsStatus(rs[|queries|], InProgress) && !IsStatus(rs[|queries|], Succeeded)
    requires rs[|queries|].ClientError? ==> attempt == MaxAttempts - 1
    ensures Poll(rs, attempt, queries).queries == queries + [StatusQuery]
  {
  }

  // ---------------------------------------------------------------------------
  // The loops

  /** The block loop: appends the `Text` of each `LINE` block, in order, and skips
      every other block. */
  method AppendLines(lines: seq<string>, blocks: seq<Block>) returns (r: seq<string>)
    ensures r == lines + LineTexts(blocks)
  {
    r := lines;
    for i := 0 to |blocks|
      invariant r == lines + LineTexts(blocks[..i])
    {
      assert blocks[..i + 1][..i] == blocks[..i];
      if blocks[i].blockType == Line {
        r := r + [blocks[i].text];
      }
    }
    assert blocks[..|blocks|] == blocks;
  }

  /** `extract_text_from_s3(key)`, with the start reply and the replies to the
      later calls given. */
  method ExtractTextFromS3(config: Config, start: StartResponse, rs: seq<Response>) returns (r: Run<ExtractError>)
    ensures r == Extract(config, start, rs)
  {
    if !config.textractReady {
      return Run(Failure(ClientNotInitialised), []);
    }
    if !BucketSet(config.bucket) {
      return Run(Failure(BucketNotSet), []);
    }
    match start {
      case StartClientError(cause) => return Run(Failure(StartFailed(cause)), []);
      case StartRaised(message) => return Run(Failure(Unexpected(Other(message))), []);
      case Started(_) =>
    }
    var attempt: nat := 0;
    var queries: seq<Query> := [];
    while attempt < MaxAttempts
      invariant |queries| <= |rs|
      invariant Poll(rs, attempt, queries) == Poll(rs, 0, [])
      decreases |rs| - |queries|
    {
      if |queries| == |rs| {
        return Run(Exhausted, queries);
      }
      ghost var before := queries;
      var result := rs[|queries|];
      queries := queries + [StatusQuery];
      var clientError: Option<string> := None;
      match result {
        case ClientError(cause) =>
          ClientErrorRetries(rs, attempt, before);
          clientError := Some(cause);
        case Raised(message) =>
          return Run(Failure(Unexpected(Other(message))), queries);
        case Page(status, blocks, next, statusMessage) =>
          if status == Succeeded {
            var textLines := AppendLines([], BlocksOf(blocks));
            ConcatEmpty(LineTexts(BlocksOf(blocks)));
            var pages := FollowPages(rs, textLines, queries, next);
            PollOnSuccess(rs, attempt, before);
            assert pages == SuccessPages(rs, before);
            match pages.end {
              case LastPage =>
                return Run(Text(Join(Newline, pages.lines)), pages.queries);
              case PageRaised(message) =>
                return Run(Failure(Unexpected(Other(message))), pages.queries);
              case PageExhausted =>
                return Run(Exhausted, pages.queries);
              case PageClientError(cause) =>
                clientError := Some(cause);
                queries := pages.queries;
            }
          } else if status == Failed {
            FailedEndsAtOnce(rs, attempt, before);
            return Run(Failure(Unexpected(JobFailed(GetOr(statusMessage, UnknownError)))), queries);
          } else if status == InProgress {
            PollRetries(rs, attempt, before);
            attempt := attempt + 1;
            continue;
          }
      }
      if clientError.Some? {
        if attempt < MaxAttempts - 1 {
          attempt := attempt + 1;
          continue;
        }
        return Run(Failure(Unexpected(StatusQueryFailed(clientError.value))), queries);
      }
    }
    return Run(Failure(Unexpected(TimedOut)), queries);
  }

  /** The `while 'NextToken' in result` loop (lines 105-113): appends the lines of
      each further page to `lines` until a page has no token or a call fails. */
  method FollowPages(rs: seq<Response>, lines: seq<string>, queries: seq<Query>, more: Option<string>) returns (p: PageRun)
    requires |queries| <= |rs|
    ensures p == Paginate(rs, lines, queries, more)
  {
    var textLines, calls, next := lines, queries, more;
    while next.Some?
      invariant |calls| <= |rs|
      invariant Paginate(rs, textLines, calls, next) == Paginate(rs, lines, queries, more)
      decreases |rs| - |calls|
    {
      if |calls| == |rs| {
        return PageRun(PageExhausted, textLines, calls);
      }
      var page := rs[|calls|];
      calls := calls + [PageQuery(next.value)];
      match page {
        case ClientError(cause) =>
          return PageRun(PageClientError(cause), textLines, calls);
        case Raised(message) =>
          return PageRun(PageRaised(message), textLines, calls);
        case Page(_, pageBlocks, pageNext, _) =>
          textLines := AppendLines(textLines, BlocksOf(pageBlocks));
          next := pageNext;
      }
    }
    return PageRun(LastPage, textLines, calls);
  }
}
