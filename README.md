# Reddit scraper record layer, modelled in Dafny

This project models the record-handling core that the entry points of the
Selenium Reddit scraper share:

- the two dataclasses `SearchData` (a post of a listing) and `CommentData`
  (a comment of a post), and the `check_string_fields` rule that each applies
  to its string fields when it is built;
- the `DataPipeline` class, a deduplicating sink. It queues records whose
  `name` is new, drops the others, flushes the queue to a CSV file when the
  queue reaches its limit, and writes the remainder on `close_pipeline`;
- the retry loops of `get_posts` (one subreddit listing into a caller's
  pipeline) and `process_post` (the comments of one post into a pipeline of
  its own);
- the comment file name that `process_post` derives from the permalink, and
  its filter that skips `"more"` placeholders.

Modules:

- `Normalize` (normalize.dfy) models `str.isspace`, `strip()` and the field
  rule. `strip()` is checked against an independent description
  (`StrippedFrom`): a slice of the input, with only whitespace cut away and no
  whitespace at either end. The record normalisers are pure functions, one
  clause per field.
- `Sink` (sink.dfy) models `DataPipeline` as a class. Its real fields are
  `names_seen`, `storage_queue`, `storage_queue_limit`, `csv_filename`,
  `csv_file_open`, and the "file exists and is non-empty" answer. Ghost state
  describes the output file as a sequence of rows and records every record
  handed in (`added`) and every record written (`written`). The class
  invariant ties these to `Dedup`, a reference definition of "first record
  seen per name, in arrival order". Lemmas prove that `Dedup` has no repeated
  name, loses no name, keeps the first-seen record and keeps arrival order.
- `Permalink` (permalink.dfy) models `str.split`, which is proved to be
  undone by `join`, `str.replace(" ", "-")`, and the file name
  `permalink.split("/")[-2]`.
- `Scrape` (scrape.dfy) models the two retry loops. The browser, proxy and
  JSON layers are replaced by a sequence of attempt outcomes, one per session
  the loop opens. Each loop is a method with a `while` loop. It is proved
  against functions that give the number of sessions, the outcome and the
  records handed to the pipeline. Lemmas then prove the properties the code
  promises about those functions.
- `Seqs` (seqs.dfy) holds a few generic sequence facts that the other
  modules cite.

## Behaviour of the code worth noting

- A whitespace-only field such as `"   "` is not empty, so it is stripped to
  `""` and does not receive the `"No <field>"` sentinel. A normalised field
  can therefore be empty, and normalising it again then gives the sentinel
  (`BlankExample`, `NormalizeFieldTwice`).
- A flush happens in the `add_data` call that brings the queue to the limit.
  With limit 2 and names a, b, a, c, the call for "b" writes a and b with a
  header, the second "a" is dropped, and "c" waits in the queue until
  `close_pipeline` writes it (`Sink.ThresholdScenario`).
- The comment file takes segment `[-2]` of the permalink split. A reddit
  permalink ends in "/", so for `/r/x/comments/abc/title/` that segment is
  the title slug and the file is `title.csv` (`RedditPermalink`). With a
  single "/" the segment before it is used, so "/x" gives the file ".csv"
  (`FilenameOneSlash`).
- Comments are deduplicated by their author, because
  `CommentData(name=data["author"], ...)`.
- `get_posts` sets `success = True` before it reads the children. A missing
  `data`/`children` key or a child that raises is therefore reported but not
  retried. `get_posts` also returns without raising when all attempts fail.
- `process_post` sets `success` only after `close_pipeline`. An exception in
  a child therefore causes a retry. The retry uses the same pipeline, so the
  comments the failed attempt added stay queued, and their re-adds are
  dropped as duplicates. A failed attempt can also flush records to the file
  once the queue reaches 50, so a post whose retries are exhausted may leave
  a partial file.
- A permalink without `/` raises `IndexError` at the file name, before any
  pipeline or session exists.

## Copies in proxy.py

The code modelled here appears twice. Every row below cites scraper-proxy.py.
proxy.py holds the same code at these lines:

- `SearchData.check_string_fields`: proxy.py:31-41
- `DataPipeline`: proxy.py:43-90
  - `save_to_csv`: 52-71
  - `is_duplicate`: 73-78
  - `add_data`: 80-84
  - `close_pipeline`: 86-90
- `get_posts`: proxy.py:102-139

proxy.py has no `CommentData` and no `process_post`.

## Model

| member | source | states |
|---|---|---|
| Normalize.IsSpace | scraper-proxy.py:41 | Python's `str.isspace` set, the characters `strip()` removes; its use is stated by the `strip()` lemmas below |
| Normalize.TrimLeft | scraper-proxy.py:41 | the `lstrip` part of `strip()`: the result is a suffix of the input, everything cut is whitespace, and it does not start with whitespace |
| Normalize.TrimRight | scraper-proxy.py:41 | the `rstrip` part of `strip()`: the result is a prefix of the input, everything cut is whitespace, and it does not end with whitespace |
| Normalize.Strip | scraper-proxy.py:41 | `value.strip()`: `StripMeetsSpec` and `StrippedFromIsStrip` prove it is exactly the independent slice description |
| Normalize.StripMeetsSpec | scraper-proxy.py:41 | `strip()` returns a contiguous slice of its input, with only whitespace on either side and none at its own ends |
| Normalize.StrippedFromIsStrip | scraper-proxy.py:41 | that description has exactly one solution, the result of `strip()` |
| Normalize.StripIsTrimmed | scraper-proxy.py:41 | the result of `strip()` has no whitespace at either end |
| Normalize.StripTrimmed | scraper-proxy.py:41 | `strip()` leaves a string without surrounding whitespace unchanged |
| Normalize.StripEmpty | scraper-proxy.py:41 | `strip()` returns "" exactly when the input is all whitespace |
| Normalize.NormalizeField | scraper-proxy.py:34-41 | the rule for one string field; `NormalizeFieldRule` proves it meets `FieldRule` |
| Normalize.CheckSearchFields | scraper-proxy.py:31-41 | `SearchData.check_string_fields`, one clause per field; `CheckSearchFieldsRule` states what it guarantees |
| Normalize.CheckCommentFields | scraper-proxy.py:52-62 | `CommentData.check_string_fields`, one clause per field; `CheckCommentFieldsRule` states what it guarantees |
| Normalize.NormalizeFieldRule | scraper-proxy.py:34-41 | one field: "" becomes `"No <field>"` and anything else is stripped; the result is "" exactly for a non-empty run of whitespace |
| Normalize.NormalizeFieldTwice | scraper-proxy.py:36-41 | normalising again changes nothing, except for a whitespace-only value: it becomes "" the first time and the sentinel the second time |
| Normalize.CheckSearchFieldsRule | scraper-proxy.py:31-41 | `name`, `author` and `permalink` each follow the field rule; `upvote_ratio` passes through unchanged; the dedup key is "" exactly for a whitespace-only title |
| Normalize.CheckCommentFieldsRule | scraper-proxy.py:52-62 | `name` and `body` each follow the field rule; `upvotes` passes through unchanged |
| Normalize.EmptyExample | scraper-proxy.py:36-38 | an empty `name` becomes "No name" |
| Normalize.PaddedExample | scraper-proxy.py:40-41 | "  Alice  " becomes "Alice" |
| Normalize.BlankExample | scraper-proxy.py:36-41 | "   " becomes "", not the sentinel |
| Sink.Dedup | scraper-proxy.py:94-105 | the reference for what a pipeline keeps: the first record per name, in arrival order; its properties are the `Dedup` lemmas below |
| Sink.DedupSnoc | scraper-proxy.py:101-103 | one more record is kept exactly when its name is not among the names kept so far |
| Sink.DedupSingle | scraper-proxy.py:101-103 | the first record handed to a fresh pipeline is always kept |
| Sink.DedupUnique | scraper-proxy.py:94-99 | no name is kept twice |
| Sink.DedupCovers | scraper-proxy.py:94-103 | no loss: a name is kept exactly when some record handed in has it, and every kept record was handed in |
| Sink.DedupFirstSeen | scraper-proxy.py:94-103 | each kept record is the first record handed in with its name |
| Sink.DedupInOrder | scraper-proxy.py:101-103 | kept records are in the order their names first arrived |
| Sink.DedupCount | scraper-proxy.py:94-103 | the number of kept records is the number of distinct names handed in |
| Sink.DedupAbsorbs | scraper-proxy.py:94-97 | records whose names were all seen before change nothing that is kept |
| Sink.DedupCongruent | scraper-proxy.py:94-103 | what is kept after a history depends only on what was kept before it |
| Sink.RetryKeepsOnce | scraper-proxy.py:172-198 | re-adding a prefix of what was already added keeps each record once, as a single clean run would |
| Sink.FileEmpty | scraper-proxy.py:82 | the file is empty exactly when it was empty at creation and nothing has been written |
| Sink.FileAfterFlush | scraper-proxy.py:82-90 | a flush of a non-empty batch appends a header only to an empty file, then the batch's rows |
| Sink.AddStep | scraper-proxy.py:101-103 | the queue and `names_seen` stay in step with the kept records when a record arrives, seen or new |
| Sink.DataPipeline.constructor | scraper-proxy.py:66-71 | empty `names_seen` and queue, flag cleared, limit and file name as given, the file as it was |
| Sink.DataPipeline.NamesSeenUnique | scraper-proxy.py:94-99 | `names_seen` never lists a name twice |
| Sink.DataPipeline.SaveToCsv | scraper-proxy.py:73-92 | empties the queue; appends a header only when the file was missing or empty, then the queued records in order; the flag is left set only when the queue was empty |
| Sink.DataPipeline.WriteRows | scraper-proxy.py:89-90 | one row per queued record, in queue order |
| Sink.DataPipeline.IsDuplicate | scraper-proxy.py:94-99 | true exactly when the name is in `names_seen`; the name is appended only when false |
| Sink.DataPipeline.AddData | scraper-proxy.py:101-105 | a duplicate changes no field; a new record goes to the end of the queue, and when the queue reaches the limit with no flush open, the whole queue is written and emptied; the invariant (written plus queue equal the first-seen records, one file header) is kept |
| Sink.DataPipeline.Enqueue | scraper-proxy.py:103-105 | the new-name branch of `add_data`: the record joins the end of the queue, and the queue is written and emptied exactly when it reached the limit with no flush open; otherwise nothing else changes; the invariant is restored |
| Sink.DataPipeline.ClosePipeline | scraper-proxy.py:107-111 | afterwards the queue is empty and the written records are every distinct name added, once each, in first-seen order |
| Sink.ThresholdScenario | scraper-proxy.py:101-111 | limit 2 and names a, b, a, c: the file ends as a header then a, b, c, and the queue is empty |
| Permalink.Split | scraper-proxy.py:169 | `str.split`: at least one piece, none holding the separator, and joining them gives the input back |
| Permalink.SplitJoin | scraper-proxy.py:169 | splitting undoes joining pieces that hold no separator |
| Permalink.SplitSingle | scraper-proxy.py:169-170 | the split has a single piece exactly when the separator is absent |
| Permalink.ReplaceSpaces | scraper-proxy.py:170 | `replace(" ", "-")`: same length, each space becomes "-", every other character is kept |
| Permalink.FilenameOf | scraper-proxy.py:169-170 | `permalink.split("/")[-2].replace(" ", "-")`, with `None` for the IndexError; stated by the three lemmas below |
| Permalink.FilenameFails | scraper-proxy.py:169-170 | `[-2]` raises exactly when the permalink holds no "/" |
| Permalink.FilenameIsSegment | scraper-proxy.py:169-170 | the name is the segment between the last two "/", with its spaces replaced |
| Permalink.FilenameOneSlash | scraper-proxy.py:169-170 | with exactly one "/", the name is the segment before it, with spaces replaced |
| Permalink.RedditPermalink | scraper-proxy.py:169-172 | "/r/x/comments/abc/title/" gives "title" |
| Scrape.PostRecord | scraper-proxy.py:141-146 | the `SearchData` built from a child's title, author, permalink and ratio, normalised; its field rules are `CheckSearchFieldsRule` |
| Scrape.CommentRecord | scraper-proxy.py:188-192 | the `CommentData` built from a comment's author, body and ups, normalised; its field rules are `CheckCommentFieldsRule` |
| Scrape.PresentPrefix | scraper-proxy.py:138-148 | the children handled before the first one that raises; all of them exactly when none raises |
| Scrape.Kept | scraper-proxy.py:185-186 | the children whose kind is not "more", in order; stated by `KeptMembers` and `KeptAppend` |
| Scrape.KeptMembers | scraper-proxy.py:185-186 | a comment is added exactly when it is a child whose kind is not "more" |
| Scrape.KeptAppend | scraper-proxy.py:185-186 | the "more" filter works child by child |
| Scrape.KeptSkipsMore | scraper-proxy.py:186 | a "more" placeholder followed by a comment keeps only the comment |
| Scrape.FirstWhere | scraper-proxy.py:127 | the first attempt within the bound that stops the loop, or the bound when none does |
| Scrape.AddPost | scraper-proxy.py:141-148 | one child: its `SearchData` is handed to `add_data`, the pipeline invariant is kept, and `csv_file_open` is unchanged |
| Scrape.AddPosts | scraper-proxy.py:137-148 | hands each child's `SearchData` to the pipeline in order until a child raises, reports whether one raised, and leaves `csv_file_open` unchanged |
| Scrape.ListingAttempt | scraper-proxy.py:129-158 | one `try` block: `success` exactly for a non-empty answer, even one whose children then fail; an exception exactly unless every child is read; `csv_file_open` unchanged |
| Scrape.GetPosts | scraper-proxy.py:123-160 | with `retries` defaulting to 3, opens the sessions `ListingSessions` gives, hands the pipeline exactly the posts of the first answer that responded, and leaves `csv_file_open` unchanged, so a clear flag keeps the queue under its limit |
| Scrape.ListingSessionsBound | scraper-proxy.py:127 | at most `retries + 1` sessions, and at least one exactly when `retries >= 0` |
| Scrape.ListingAllFail | scraper-proxy.py:152-158 | when no answer arrives, all `retries + 1` sessions are used, nothing is added, and nothing is raised |
| Scrape.ListingFirstResponse | scraper-proxy.py:135-137 | the first answer ends the loop even when one of its children raises, with the posts read before it |
| Scrape.AddComment | scraper-proxy.py:188-193 | one kept comment: its `CommentData` is handed to `add_data`, the pipeline invariant is kept, and `csv_file_open` is unchanged |
| Scrape.AddComments | scraper-proxy.py:185-193 | hands each comment whose kind is not "more" to the pipeline in order until a child raises, and leaves `csv_file_open` unchanged |
| Scrape.CommentAttempt | scraper-proxy.py:176-198 | one `try` block: succeeds exactly when the tree is read with no child raising, and then the pipeline is closed; a clear `csv_file_open` stays clear |
| Scrape.RetryComments | scraper-proxy.py:174-201 | opens the sessions `DetailSessions` gives on one shared pipeline and adds `DetailAdded` to its history; `csv_file_open` stays clear; on success everything first seen is written |
| Scrape.ProcessPost | scraper-proxy.py:162-203 | with `retries` defaulting to 3: raises before any session when the permalink has no "/"; otherwise one pipeline on "<name>.csv" with limit 50, the sessions and records the retry loop gives, `csv_file_open` clear and fewer than 50 records queued, and a raise exactly when no attempt succeeds |
| Scrape.DetailSucceededIff | scraper-proxy.py:202-203 | `process_post` does not raise exactly when some attempt within the bound succeeds |
| Scrape.DetailAllFail | scraper-proxy.py:174-203 | when every attempt fails, all `retries + 1` sessions are used and it raises |
| Scrape.DetailFirstSuccess | scraper-proxy.py:194-195 | after `k` failures, a success ends the loop after `k + 1` sessions, with the comments of all of them added |
| Scrape.AttemptCommentsSource | scraper-proxy.py:185-193 | every record handed over comes from a child before the first one that raises, and that child's kind is not "more" |
| Scrape.RetryAfterPartialPage | scraper-proxy.py:172-198 | after a page that raises after `p` and a full page `p + t`, two sessions succeed and each kept comment of `p + t` ends up once |
| Scrape.PageWithMore | scraper-proxy.py:185-195 | a tree of a placeholder and one comment succeeds and adds only the comment |
| Scrape.DetailScenarioOutcome | scraper-proxy.py:174-198 | two failures and then that tree, with `retries = 2`: three sessions, success, one comment added |
| Scrape.TwoFailuresThen | scraper-proxy.py:174-198 | with `retries = 2`, two failed sessions and then a complete tree: three sessions, success, and exactly that tree's kept comments added |
| Scrape.DetailScenario | scraper-proxy.py:162-203 | "/r/x/comments/abc/title/", `retries = 2`, two failures and then a placeholder and one comment: file "title.csv", three sessions, no raise, only the comment written |

## Left out

- `process_posts` and its `ThreadPoolExecutor` are not modelled. They read a
  CSV of posts and run `process_post` concurrently, and they discard the
  results of `executor.map`, so per-post exceptions are lost. The model is
  sequential.
- `time.sleep(3)` in `close_pipeline` only waits out a concurrent flush. It
  does nothing in a sequential model.
- `get_scrapeops_url` and the URL strings are not modelled. They are a
  wrapper over `urlencode`, whose code is not part of this model.
- Selenium, `json.loads`, and the response's dictionary indexing are
  replaced by the `Attempt` outcomes. Each outcome is one of: failed before
  JSON, empty, malformed, or a list of children, each of which is read or
  raises. Logging, screenshots and `driver.quit()` are left out as well;
  the exceptions those calls can raise are the subject of the next line.
- Exceptions raised outside the `try` blocks are not modelled. These are
  `webdriver.Chrome(options=options)` before each `try`
  (scraper-proxy.py:128, 175), `driver.save_screenshot` in the `except` of
  `get_posts` (scraper-proxy.py:156), and `driver.quit()` in the `finally`
  clauses (scraper-proxy.py:160, 201); in proxy.py the same calls sit at
  lines 107, 135 and 139. Each of them propagates uncaught and
  ends the loop: `get_posts` then raises and `process_post` raises without a
  retry. Every `Attempt` outcome stands for a failure inside the `try`, so
  `ListingAllFail`'s "nothing is raised" and `ProcessPost`'s "raises exactly
  when no attempt succeeds" hold only for runs without these exceptions.
- Sink.DataPipeline.SaveToCsv: a failing `open` or `writerow`
  (scraper-proxy.py:83-90) is not modelled; the file write always succeeds.
  In the code the queue is cleared first (scraper-proxy.py:77), so such a
  failure loses the batch and leaves `csv_file_open` set, which stops every
  later flush from `add_data`. Inside `process_post` the exception is caught
  and the retry's re-adds are dropped as duplicates. The invariant that
  every kept record is written or still queued holds only for runs where
  every write succeeds.
- The CSV format is not modelled. The file is a ghost sequence of header and
  data rows, plus the answer of `os.path.isfile`/`getsize`. A pipeline that
  receives records of both dataclasses (which `DictWriter` would reject) is
  not modelled.
- `upvote_ratio` is a Python float. It is modelled as a `real` that is only
  carried along.
- Scrape.GetPosts requires a pipeline. The default `data_pipeline=None` of
  `get_posts` is not modelled: with it, adding the first post raises
  `AttributeError` after `success` is set.
- The `__main__` blocks, the module configuration and pagination.py are not
  modelled. pagination.py only fetches and prints.
