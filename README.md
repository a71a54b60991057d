# Document ingestion core: Textract job orchestration and text chunking

This project is a Dafny model of the two algorithmic pieces of a document-ingestion
backend. It also models the small pure helpers of the upload step.

- **Text chunking** (`chunk_text` and `_split_by_words` in `backend/language_utils.py`):
  - A text is split into sentences by `re.split(r'(?<=[.!?])\s+(?=[A-Z])', text)`.
  - The sentences are packed greedily into chunks of at most `max_chars` characters.
    The overflow test is `len(current) + len(next) + 1 > max_chars`.
  - A sentence longer than the limit is packed word by word instead. Its last word chunk
    stays open, so it can absorb the sentences that follow.
  - A single word longer than the limit becomes its own chunk.
- **Textract orchestration** (`extract_text_from_s3` in `backend/file_processor.py`):
  - Start a text-detection job, then poll its status for up to 60 counted attempts.
    A reply with a status the code does not recognise is polled again without counting.
  - On `SUCCEEDED`, follow the `NextToken` result pages and return the `LINE` texts
    joined by `'\n'`.
  - `FAILED`, a timeout, a status query that keeps failing, or any other exception each
    ends in one of the function's `RuntimeError` messages.
- **Upload helpers** (`upload_to_s3` and `_get_content_type`):
  - the file extension;
  - the object key `reports/<uuid>_<filename>`;
  - the MIME type lookup.

## Layout

- `strings.dfy` (`Strings`): the Python `str` built-ins the core relies on, over
  `seq<char>`. These are `isspace` (CPython's 29 whitespace code points), `strip`,
  `split()`, `split(sep)`, `join` and ASCII `lower`. It also holds the lemmas that
  connect them.
- `sentences.dfy` (`Sentences`): the sentence-splitting regular expression as a scan
  function, `SplitSentences`.
- `chunker.dfy` (`Chunker`):
  - Both chunking loops are methods with `for` loops (`PackWordList`, `PackSentenceList`),
    each proved equal to a left fold (`PackWords`, `PackSentences`). The state of the fold
    is a `Packing`: the chunks appended so far and the running `current_chunk`.
  - The guarantees are lemmas about the folds.
  - `ChunkText` and `SplitByWords` are the two Python functions.
  - `AddSentenceTo` is the body of the sentence loop.
- `textract.dfy` (`Textract`):
  - The Textract service is an oracle. The reply to the start call is a parameter, and
    the replies to the successive `get_document_text_detection` calls are a sequence,
    consumed one per call.
  - Every call is recorded in a trace of `Query` values. A status poll is `JobId` only;
    a page request also passes a `NextToken`.
  - `ExtractTextFromS3` is the method with its `while` loops. `FollowPages` is the
    pagination loop and `AppendLines` the `LINE` filter. The method is proved equal to
    the recursive functions `Poll`, `Paginate` and `Extract`, and the behaviour is proved
    about those.
- `upload.dfy` (`Upload`): the extension, key and content-type derivation of
  `upload_to_s3`. The generated `uuid4` string is a parameter.

## Behaviour a reader might expect that the code does not have

The model follows the code, including in these places:

- **Non-positive `max_chars`.** A reader might expect such a limit to be rejected. The
  code never checks it, so the model has no precondition on `maxChars`. Every chunking
  property is proved for every integer limit; with a non-positive limit, every word is
  its own chunk.
- **No raw length cut.** A reader might expect a final fallback that cuts an
  over-long word at a fixed length. The code has none: a word longer than the limit is kept whole as one chunk.
  `ChunkOk` states exactly that.
- **Unrecognised job status.** A reader might expect polling always to end within
  `max_attempts` cycles. The code has no branch for a status other than `SUCCEEDED`,
  `FAILED` or `IN_PROGRESS`. Such a reply polls again at once, without sleeping and
  without counting an attempt. `Textract.UnrecognisedNeverFinishes` proves that a run of
  such replies never ends the loop. `Textract.PollsBounded` proves the 60-poll bound
  once such replies are excluded.
- **Distinct error kinds.** A reader might expect the job-failed, timeout and
  status-query errors to surface as separate kinds. In the code, the handler at lines
  139-140 re-wraps every error raised inside the outer `try` as `Unexpected error
  during text extraction: …`. That covers the job-failed, timeout and status-query
  `RuntimeError`s and any other exception. The one exception is the start call's
  `ClientError`, which lines 137-138 report as `Failed to start Textract job: …`. `Textract.Extract` and
  `ErrorMessage` model this wrapping.
- **Partial results are dropped.** A reader might expect the lines already collected to
  survive a failed page request. On a `ClientError` while following the `NextToken`
  pages, the handler at lines 127-131 retries the whole poll when an attempt is left.
  The next `SUCCEEDED` reply starts a fresh `text_lines` list (line 97), so the earlier
  lines are lost. `Textract.PaginationErrorRestarts` and `Textract.SucceededThenClientError`
  prove this: the next poll starts from nothing. On the last attempt the error is final
  (line 133) and nothing collected is returned. `Textract.SucceededThenClientErrorAtLast`
  proves this case.

## Model

| member | source | states |
|---|---|---|
| Strings.StripEmptyIff | backend/language_utils.py:153 | `text.strip()` is empty exactly when every character of the text is whitespace |
| Strings.WordsEmptyIff | backend/language_utils.py:211 | `split()` yields no word exactly when the text is all whitespace |
| Strings.WordsAreWords | backend/language_utils.py:211 | every piece `split()` yields is non-empty and free of whitespace |
| Strings.WordsStrip | backend/language_utils.py:169 | stripping a text keeps its words |
| Strings.WordsJoinSpace | backend/language_utils.py:190 | joining two texts with one space gives the words of the first, then those of the second |
| Strings.SplitOnJoin | backend/file_processor.py:42 | joining the pieces of `split('.')` with `'.'` gives back the file name, and no piece holds a dot |
| Strings.SplitOnLast | backend/file_processor.py:42 | the last piece of `split('.')` is the text after the last dot, or the whole name when there is no dot |
| Strings.LowerIdempotent | backend/file_processor.py:153 | lower-casing twice is lower-casing once |
| Sentences.SpaceRunEnd | backend/language_utils.py:164 | the greedy `\s+` run starting at a position: all whitespace, maximal, non-empty when it starts on whitespace |
| Sentences.SplitSentencesWords | backend/language_utils.py:164 | the sentence split drops only whitespace: the pieces' words, in order, are the text's words |
| Sentences.SplitSentencesBoundaries | backend/language_utils.py:164 | every piece but the last ends in `.`, `!` or `?`, and every piece after the first starts with an ASCII capital |
| Sentences.SplitSentencesCount | backend/language_utils.py:164 | the text splits into more than one piece exactly when the pattern matches somewhere |
| Sentences.SplitFrom | backend/language_utils.py:164 | the left-to-right scan of `re.split`: a piece ends at each match, the search resumes after the matched whitespace, and at least one piece results |
| Sentences.SplitSentences | backend/language_utils.py:164 | the pieces `re.split(r'(?<=[.!?])\s+(?=[A-Z])', text)` returns; there is always at least one |
| Sentences.SentencesOfWord | backend/language_utils.py:164 | a text without whitespace is one sentence, itself |
| Chunker.WordChunks | backend/language_utils.py:200-236 | a text with at least one word gives at least one word chunk |
| Chunker.WordStepProperties | backend/language_utils.py:215-230 | one word step keeps every chunk well formed and appends exactly that word to the words held |
| Chunker.PackWordsProperties | backend/language_utils.py:215-230 | after the word loop the chunks are well formed and hold exactly the input words, in order |
| Chunker.SealProperties | backend/language_utils.py:233-234 | appending the stripped running chunk keeps every word and leaves no empty chunk |
| Chunker.WordChunksProperties | backend/language_utils.py:200-236 | `_split_by_words` yields well-formed chunks whose words, in order, are the text's words |
| Chunker.WordChunksOfWord | backend/language_utils.py:222-224 | a single word, of any length, is split into exactly itself |
| Chunker.JoinChunk | backend/language_utils.py:189-190 | joining two chunks with a space within the limit gives a well-formed chunk with both chunks' words |
| Chunker.FlushProperties | backend/language_utils.py:176-178 | sealing a non-empty running chunk on overflow keeps the chunks well formed and every word |
| Chunker.StartAfterOverflowProperties | backend/language_utils.py:180-186 | a long sentence's word chunks, all but the last appended and the last carried, keep every word |
| Chunker.AddSentenceProperties | backend/language_utils.py:173-192 | adding a stripped sentence keeps the chunks well formed and appends that sentence's words |
| Chunker.SentenceStepProperties | backend/language_utils.py:168-192 | one sentence iteration, blank sentences skipped, appends the sentence's words |
| Chunker.PackSentencesProperties | backend/language_utils.py:168-192 | after the sentence loop the chunks are well formed and hold the words of all the sentences, in order |
| Chunker.ChunksProperties | backend/language_utils.py:142-198 | every chunk is non-empty, stripped and within `max_chars` unless it is one longer word, and the chunks' words are the text's words |
| Chunker.ChunksEmptyIff | backend/language_utils.py:153-154 | no chunks exactly when the text is empty or whitespace only |
| Chunker.ChunkIsFixed | backend/language_utils.py:142-198 | a well-formed chunk, chunked again with the same limit, comes back alone and unchanged |
| Chunker.ChunksIdempotent | backend/language_utils.py:142-198 | re-chunking any produced chunk gives exactly that chunk |
| Chunker.SplitByWords | backend/language_utils.py:200-236 | the method returns the fold's chunks: well formed, the text's words in order, non-empty when the text has a word |
| Chunker.PackWordList | backend/language_utils.py:212-230 | the word loop ends in the state of the left fold `PackWords` over the words |
| Chunker.ChunkText | backend/language_utils.py:142-198 | the method returns `Chunks`: well formed, the text's words in order, empty exactly for blank text, the stripped text when it fits |
| Chunker.PackSentenceList | backend/language_utils.py:160-192 | the sentence loop ends in the state of the left fold `PackSentences` over the sentences |
| Chunker.AddSentenceTo | backend/language_utils.py:173-192 | the loop body leaves the state that `AddSentence` gives, the word-split fallback included |
| Textract.LineTexts | backend/file_processor.py:100-102 | the `Text` of the `LINE` blocks of a page, in order, never more texts than blocks |
| Textract.LineTextsSelects | backend/file_processor.py:100-102 | only `LINE` blocks contribute: a page of lines gives all its texts, a page without lines gives none |
| Textract.LineTextsAppend | backend/file_processor.py:111-113 | the lines of two block lists are the lines of the first, then those of the second |
| Textract.Paginate | backend/file_processor.py:105-113 | the page loop only extends the call trace and stays within the replies |
| Textract.Poll | backend/file_processor.py:86-135 | the polling loop only extends the call trace, and a live attempt makes at least one call |
| Textract.Extract | backend/file_processor.py:63-140 | no call is made exactly when a guard fails, the start fails or no reply exists, and every failure after a call is the wrapped `Unexpected error…` |
| Textract.ErrorMessage | backend/file_processor.py:66-140 | the message of each error the function raises, which starts with a character distinct for each of the four kinds |
| Textract.JobErrorMessage | backend/file_processor.py:117-135 | the messages raised inside the loop, told apart by their characters at positions 0 and 13 |
| Textract.MessageHead | backend/file_processor.py:66-140 | each kind of error message starts with its own character |
| Textract.ErrorMessageInjective | backend/file_processor.py:63-140 | distinct errors give distinct messages, except passed-through foreign messages |
| Textract.JobErrorMessageInjective | backend/file_processor.py:117-135 | distinct errors raised inside the loop give distinct messages |
| Textract.InProgressTimesOut | backend/file_processor.py:87-135 | `IN_PROGRESS` replies filling the remaining attempts end in the timeout, after one poll each |
| Textract.UnrecognisedPollsAgain | backend/file_processor.py:90-125 | a reply with an unrecognised status is followed by another poll at the same attempt count |
| Textract.UnrecognisedNeverFinishes | backend/file_processor.py:90-125 | a reply with an unrecognised status costs no attempt, so such replies poll until the replies run out |
| Textract.FailedEndsAtOnce | backend/file_processor.py:117-119 | `FAILED` ends the loop at once with its `StatusMessage` or `Unknown error` |
| Textract.ClientErrorRetries | backend/file_processor.py:127-133 | a status `ClientError` costs one attempt and re-polls, and on the last attempt fails with the status error |
| Textract.PollRetries | backend/file_processor.py:121-131 | `IN_PROGRESS`, or a `ClientError` before the last attempt, re-polls with one more attempt |
| Textract.PollStops | backend/file_processor.py:117-133 | `FAILED`, another exception, or a `ClientError` on the last attempt ends the loop after that one call |
| Textract.SucceededSinglePage | backend/file_processor.py:95-115 | `SUCCEEDED` without `NextToken` returns that reply's `LINE` texts joined by newlines |
| Textract.PaginateChain | backend/file_processor.py:105-113 | following a chain of pages collects every page's lines in order with one request per token |
| Textract.SucceededCollectsAllPages | backend/file_processor.py:95-115 | `SUCCEEDED` with `NextToken` returns the lines of every page in order, joined by newlines |
| Textract.PaginationErrorRestarts | backend/file_processor.py:105-131 | a `ClientError` on a page request ends the pagination with that error after one call per page |
| Textract.SucceededThenClientError | backend/file_processor.py:95-131 | after such an error the loop polls again from scratch, with the lines collected so far dropped |
| Textract.SucceededThenClientErrorAtLast | backend/file_processor.py:127-133 | on the last attempt such an error ends the loop with `Failed to get Textract job status` and the page request's cause |
| Textract.PaginateMakesNoPolls | backend/file_processor.py:105-109 | the page loop makes page requests only, never status polls |
| Textract.PollsBounded | backend/file_processor.py:87-135 | without unrecognised statuses the loop makes at most 60 status polls |
| Textract.AppendLines | backend/file_processor.py:100-102 | the block loop appends the `LINE` texts of the blocks, in order |
| Textract.FollowPages | backend/file_processor.py:105-113 | the `while 'NextToken' in result` loop ends as `Paginate` does |
| Textract.ExtractTextFromS3 | backend/file_processor.py:63-140 | the method's outcome and call trace are those of `Extract` |
| Upload.ContentType | backend/file_processor.py:143-153 | each of the six lower-cased extensions maps to its type, and exactly the others to `application/octet-stream` |
| Upload.ContentTypeIgnoresCase | backend/file_processor.py:153 | extensions equal up to ASCII case get the same type |
| Upload.FileExtension | backend/file_processor.py:42 | the text after the last dot, dot-free, or `bin` when the name has no dot |
| Upload.ObjectKey | backend/file_processor.py:43 | the key is `reports/`, the id, `_`, then the file name |
| Upload.ObjectKeyInjective | backend/file_processor.py:41-43 | for ids of one length the key determines both the id and the file name |
| Upload.UploadRequest | backend/file_processor.py:41-50 | the key sent lies under `reports/` and ends with the file name, and a dot-free name is sent as `application/octet-stream` |
| Upload.UploadContentType | backend/file_processor.py:41-50 | a dot-free name is sent as `application/octet-stream`, and `stem.ext` by the type of `ext` |

## Left out

- The OpenAI wrappers in `backend/language_utils.py` are not part of this model. These
  are `transcribe_audio`, `translate_text`, `speak_text` and `detect_language`, plain
  request/response calls to a remote model.
- The summarisation backends in `backend/model_config.py` (`summarize_text` and its
  Sarvam and OpenAI variants) are not part of this model either. Neither is the HTTP
  endpoint glue in `backend/main.py`.
- Texts are sequences of Unicode scalar values. A Python `str` can also hold lone
  surrogates (U+D800 to U+DFFF), which a Dafny `char` cannot, so such texts are outside
  the model.
- The AWS client set-up at import time (lines 7-26) is I/O. It appears only as the
  `Config` value: whether the client exists, and the value of `S3_BUCKET`.
- `time.sleep(5)` is not modelled. It has no effect on the result.
- The key and the job id are not passed to the oracle. Each reply is taken to belong to
  the job that was started.
- `Textract.Extract`: `KeyError` paths are not modelled. These are a started-job reply
  without `JobId`, a result without `JobStatus`, and a block without `BlockType` or
  `Text`. The oracle's replies always carry those keys.
- `Textract.Extract`: the `str(e)` of a `ClientError` or of another exception is an
  opaque string carried by the reply.
- `Textract.Extract`: the outcome `Exhausted` says the oracle has no reply left for a
  call the code would make. It stands for "the run goes on beyond the replies given"
  and is not an outcome of the Python function.
- `Textract.ErrorMessageInjective` excludes the error that passes a foreign exception's
  message through unchanged. Such a message can equal any other message.
- `Textract.PollsBounded` assumes that no reply carries an unrecognised status. Without
  that assumption the bound is false, as `Textract.UnrecognisedNeverFinishes` shows.
  The assumption is stronger than needed, because it also covers replies to page
  requests. The code never reads the status of those (lines 105-113). Singling out the
  replies that status polls consume would depend on the run itself.
- `Upload.ContentType`: `str.lower()` is modelled on ASCII letters only. The six table
  keys are ASCII. The only non-ASCII character whose lower-case form is a single ASCII
  letter is the Kelvin sign (to `k`), and no key holds a `k`. U+0130 lowers to `i` plus
  a combining dot, and no key holds that dot. So full lower-casing and ASCII
  lower-casing give the same lookup result for every input.
- `upload_to_s3` is modelled only as far as the request it builds (`Upload.UploadRequest`).
  Left out:
  - the `put_object` call, which is I/O;
  - the guards on lines 33-37;
  - the exception mapping on lines 55-60;
  - the `uuid4` generation, for which the id is a parameter.
- The default `max_chars = 2000` of `chunk_text` is not a constant of the model. The
  limit is always a parameter.
- `Chunker.SplitByWords` and `Chunker.ChunkText` return a Dafny sequence. Python's
  in-place list appends are modelled as reassignments of a `seq` variable.
