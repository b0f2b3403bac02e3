# Reddit comment poller: a Dafny model of its bookkeeping

The poller repeatedly scrapes one subreddit at a time, round-robin. It flags
every reply whose tokens contain a watched term. It records each flagged reply
together with its parent reply, and appends the records whose permalink it has
not seen before to an accumulated list. Once the list holds `desired_entries`
(10000) comments, it writes a flat-text report. This project models the
deterministic bookkeeping of `scripts/main.py` and proves what it guarantees.

Modules, one per component:

- `Records` (records.dfy): the fetched reply, the submission holding a list of
  replies, and the flagged `Comment` record.
- `TermMatcher` (term_matcher.dfy): the token loop that keeps the watched
  tokens, and the flagging decision.
- `Scraper` (scraper.dfy): the parent-key slice, the first-match parent
  lookup, record construction, and the nested scrape loops over submissions
  and replies.
- `Dedup` (dedup.dfy): the meaning of one dedup batch, with an independent
  "first unseen occurrences" definition and the lemmas about it.
- `Report` (report.dfy): the report banner and per-comment blocks.
- `Settings` (settings.dfy): the comma split of the settings files and its
  inverse.
- `Poller` (poller.dfy): the loop state as a class. It has the dedup loop, the
  exit check and round-robin advance, one whole cycle, and the report-building
  loop.

External collaborators are parameters:

- `fetch: string -> seq<Submission>` stands for `subreddit.hot`,
  `replace_more` and `comments.list()`.
- `tokenize: string -> seq<string>` stands for `word_tokenize(body.lower())`.

A deleted author is `None`. The parent id that starts out as the integer `0`
is `parentId == None`.

Behaviours one might expect of such a poller that the code does not have; the model follows the code:

- Only replies are flagged. Submissions are never matched, and the report has
  a single "Comments" banner.
- A deleted author is recorded as `""`, not as a placeholder.
- Dedup is the linear scan of the code. The list being scanned is the
  accumulated list itself, so a url repeated inside one batch is kept only
  once.
- Only the round-robin mode exists. One subreddit is scraped per cycle.
- No fetch failure is caught. `fetch` is total, so the model has no
  "source unavailable" path.

## Model

| member | source | states |
|---|---|---|
| TermMatcher.FindTerms | scripts/main.py:102-106 | the found-terms loop returns exactly the tokens that are members of the term list, in token order, duplicates kept (`MatchedTerms`) |
| TermMatcher.MatchedTermsAppend | scripts/main.py:104-106 | matching the concatenation of two token sequences is matching each in turn, so the kept tokens keep their relative order |
| TermMatcher.MatchedTermsSound | scripts/main.py:104-106 | every kept token is a member of the term list and one of the comment's tokens |
| TermMatcher.MatchedTermsCount | scripts/main.py:104-106 | a watched token is kept as often as it occurs; an unwatched token is never kept |
| TermMatcher.FlaggedIff | scripts/main.py:108 | a comment is flagged iff some token is an exact member of the term list |
| TermMatcher.FlaggedIffIntersects | scripts/main.py:108 | a comment is flagged iff its token set meets the term set, independent of order and repetition |
| Records.AuthorName | scripts/main.py:120-121 | the author's name, or `""` when the author is absent (the same test is applied to the parent at lines 135-136) |
| Scraper.ParentKey | scripts/main.py:110-111 | the parent key is the parent reference without its first three characters, and the empty string when the reference is shorter |
| Scraper.FirstWithId | scripts/main.py:111 | the lookup yields nothing iff no fetched reply has the key as id, and otherwise the first fetched reply whose id is the key |
| Scraper.MakeComment | scripts/main.py:113-141 | id, body, subreddit and permalink are copied; the author is the author's name, or `""` when the author is absent; an unresolved parent keeps the default empty author, body and url |
| Scraper.MakeCommentParent | scripts/main.py:110-111 | the parent is resolved, so that the `parent_id != 0` check of line 201 holds, iff some fetched reply of the submission has the parent key as id; its id, author, body and url then come from the first such reply |
| Scraper.Scrape | scripts/main.py:84-145 | the nested loops return, submission by submission and reply by reply, the record of every flagged reply (`Scraped`) |
| Scraper.ScanComments | scripts/main.py:98-143 | every record produced for a submission's replies carries that submission's subreddit |
| Scraper.ScanCommentsMembers | scripts/main.py:98-143 | a record is produced for a reply list iff it is the record of a flagged reply of that list |
| Scraper.ScanCommentsLength | scripts/main.py:98-143 | a scrape yields at most one record per fetched reply |
| Scraper.ScrapedMembers | scripts/main.py:92-145 | a scrape's records are exactly the records produced for the reply lists of its submissions, each with its own submission's subreddit |
| Dedup.DedupAppend | scripts/main.py:185-192 | every comment appended past the old list comes from the batch |
| Dedup.DedupAppendIsFirstSeen | scripts/main.py:185-192 | after a batch, the list is the old list followed by the first occurrence of each url it did not hold, in batch order |
| Dedup.DedupAppendGrowth | scripts/main.py:185-192 | the old list is an unchanged prefix of the new one, and the list grows by at most the batch size |
| Dedup.DedupAppendDistinct | scripts/main.py:185-192 | if the accumulated urls are pairwise distinct before a batch, they are after it |
| Dedup.DedupAppendCovers | scripts/main.py:185-192 | after a batch, the list holds a url iff it held it before or the batch carried it |
| Dedup.DedupAppendAllSeen | scripts/main.py:185-192 | a batch whose urls are all already accumulated changes nothing |
| Dedup.DedupAppendIdempotent | scripts/main.py:185-192 | processing the same batch a second time appends nothing |
| Dedup.DedupAppendCycles | scripts/main.py:168-192 | two batches in successive cycles give the same list as their concatenation in one, so the list is in first-seen order however the cycles fell |
| Report.Block | scripts/main.py:227-231 | the block of one comment ends with the rule line |
| Report.ReportText | scripts/main.py:220-231 | the report opens with the banner; the blocks that follow are in accumulation order (`ReportIncremental`) |
| Report.ReportIncremental | scripts/main.py:220-231 | the report of a list is the report of any prefix followed by the blocks of the rest, in accumulation order |
| Report.BannerShape | scripts/main.py:222-224 | the rule line is 62 hash signs and the title line is 62 characters framed by hash signs, neither holding a line break |
| Report.HeaderLines | scripts/main.py:222-224 | the banner is three lines |
| Report.BlockLines | scripts/main.py:227-231 | a comment whose fields hold no line break takes exactly five lines: author, text, subreddit, url and the rule |
| Report.ReportLines | scripts/main.py:220-231 | with no line break in any field, the report has 3 + 5 x (number of comments) lines |
| Settings.SplitComma | scripts/main.py:155-156 | splitting a settings file at commas never gives an empty list, and no piece contains a comma |
| Settings.JoinSplit | scripts/main.py:155-156 | the pieces joined with commas give back the file contents |
| Settings.SplitJoin | scripts/main.py:155-156 | splitting a comma-joined non-empty list of comma-free pieces gives back the pieces |
| Poller.NextSource | scripts/main.py:215 | the next source index is in range and is the successor, wrapping to 0 after the last source |
| Poller.AdvancedMod | scripts/main.py:215 | after any number `k` of cycles that did not stop, the index is `(start + k) % len(subreddit_list)` |
| Poller.RoundRobinVisitsAll | scripts/main.py:174-215 | every subreddit is scraped within any `len(subreddit_list)` consecutive cycles |
| Poller.RoundRobinPeriod | scripts/main.py:215 | after `len(subreddit_list)` cycles that did not stop, the index is back where it started |
| Poller.Poller.constructor | scripts/main.py:155-163 | the term and subreddit lists are the comma-split files, the index starts at 0 and nothing is accumulated, so the index is valid |
| Poller.Poller.Seen | scripts/main.py:186-189 | the inner scan finds a url iff some accumulated comment has it |
| Poller.Poller.Admit | scripts/main.py:180-192 | the dedup loop leaves the list as `DedupAppend` of the old list and the batch, and keeps the urls distinct |
| Poller.Poller.Advance | scripts/main.py:211-215 | polling stops iff at least `desired_entries` comments are accumulated; otherwise the index moves to the next source and stays in range |
| Poller.Poller.Cycle | scripts/main.py:168-215 | one cycle scrapes the current subreddit (a valid index), admits the scraped records, then stops or advances as `Advance` says |
| Poller.Poller.BuildReport | scripts/main.py:220-231 | the report loop produces the banner followed by one block per accumulated comment, in accumulation order |

## Left out

- Network access through the reddit client: the client, `subreddit.hot(limit=posts_per_subreddit)`, `replace_more` and `comments.list()`. They become the `fetch` parameter. The 200-submission limit is therefore not modelled.
- The tokenizer and lower-casing. They become the `tokenize` parameter, which is applied to the raw body.
- Reading the settings files and writing the output file: file I/O. The model takes the file contents as strings and returns the report string. A trailing line break in a settings file stays part of the last entry, as it does in the code.
- All console output: it is logging only. This includes the parent printout guarded by `parent_id != 0`. `Scraper.MakeCommentParent` states exactly when that guard holds.
- Time pacing with `time.monotonic`, `time.sleep` and the floating-point rate: wall-clock time and floating point.
- The unbounded `while(True)` driver: it only terminates through the network. One iteration is modelled by `Poller.Poller.Cycle`.
- The unused `Submission` class, the `label` fields and the classifier imports: they are dead code.
