# Indeed job scraper: a Dafny model of its core

The scraper builds Indeed search URLs, walks the result pages, stores one posting per job card in
SQLite, and later backfills the descriptions of postings that still lack one. This project models
the deterministic core of that program and proves properties of it:

- `IndeedScraper.build_query_url` is an imperative method on the scraper class. It writes `self.url`
  step by step. It is proved against `QueryUrl.Build`, which gives the URL or the exception raised,
  and also what `self.url` held when the exception was raised.
- `get_current_url` drops the last two `&`-segments of the browser's address.
- `remove_links_from_markdown`:
  - the regular expression `\[([^]]+)]\(([^)]+)\)` is modelled as a scanner;
  - matches are rewritten leftmost first and without overlap;
  - then every newline is removed.
- The listing crawl of `search_for_jobs` is a loop over result pages given as input, each a sequence
  of job cards. Each card's three lookups either succeeded or set only that field to `None`. The loop
  builds the page-1 URL once, then the URLs of pages 2, 3, … in order, and calls `update_job_postings`
  once per card.
- The challenge tests of `requires_human_verification` and `get_description_html` are modelled, as is
  the three-try ladder of `get_job_html`. The outcome of each try is an input.
- The description backfill of `main`:
  - its `WHERE` clause is modelled with SQLite `LIKE` semantics;
  - the loop over the selected postings is modelled;
  - `html_to_markdown` is a function parameter.
- `DatabaseTools` is a class over an in-memory model of its tables. `job_postings` is a sequence of
  rows in insertion order, and `search_sessions` is a map from row id to row. It covers:
  - `INSERT OR IGNORE` keyed by `job_unique_id`;
  - the description `UPDATE`;
  - session creation with a fresh id;
  - selection by session;
  - the column and placeholder strings of `insert_record`;
  - the in-place list flattening of `insert_job_detail`, on an array of key/value pairs.

The DDL script `ddl.sql`, which `setup` reads from the module's own directory
(`database_tools.py:14`, `27-31`), is not shown, so the table definitions are not part of this model.
The model assumes that `job_unique_id` is a UNIQUE
key that admits NULL. In SQL no two NULLs are equal, so every record whose id lookup failed gets a
row of its own.

Every `DatabaseTools()` runs `setup(force_update=True)` (`database_tools.py:10-16`, `24-45`), which
executes the DDL script again. The crawl creates one such object for the session and one per card,
and `main` creates one more. Since `ddl.sql` is not shown, the model assumes it
only creates tables that do not exist yet (no `DROP`), so that every object sees the same tables.
One `JobStore` stands for all of them.

Two behaviours of the code differ from what its comments and structure suggest. The model
follows the code:

- The comment at `indeed_scraper.py:64` says a search without a location is effectively remote,
  with no radius term. But the first radius test at line 62 already evaluates `location.lower()`
  whenever a radius is given. So a missing location with the default radius of 50 raises
  `AttributeError`, and the branch at line 65 is never reached. `Build` returns
  `LocationHasNoLower` for this case, and `QueryUrl.DefaultsRaise` states it for the defaults.
- The backfill of `main` (`indeed_scraper.py:313-320`) stores the output of `html_to_markdown` as
  the description and never calls `remove_links_from_markdown`. The model's backfill does the same.

Files:

| file | holds |
|---|---|
| `base.dfy` | `Option` and `Result` |
| `strings.dfy` | substring tests, `split`/`join`, `str()` of integers, `%20` encoding, ASCII lower case |
| `py_values.dfy` | Python values and SQLite parameter binding |
| `query_url.dfy` | the rules of `build_query_url` |
| `markdown_links.dfy` | `remove_links_from_markdown` |
| `selection.dfy` | the challenge tests, SQLite `LIKE`, the backfill `WHERE` clause |
| `database_tools.dfy` | `DatabaseTools` |
| `indeed_scraper.dfy` | the scraper class, the crawl, the fetch ladder, the backfill |

## Model

| member | source | states |
|---|---|---|
| Strings.ContainsIff | indeed_scraper.py:144 | Python's `p in s` holds exactly when `p` occurs at some index of `s` |
| Strings.ContainsPrefixOfPattern | indeed_scraper.py:251 | a text containing `p + q` contains `p` |
| Strings.Split | indeed_scraper.py:117 | `split('&')` gives at least one piece, and no piece holds the separator |
| Strings.SplitJoin | indeed_scraper.py:117 | joining the pieces with the separator gives the string back; there is one piece more than there are separators |
| Strings.JoinSplit | indeed_scraper.py:117 | splitting a join of separator-free pieces gives exactly those pieces |
| Strings.NatToStringDigits | indeed_scraper.py:90 | `str(n)` of a non-negative integer is a non-empty string of decimal digits |
| Strings.ParseNatToString | indeed_scraper.py:90 | `str(n)` denotes `n` again (no two offsets print alike) |
| Strings.IntToStringChars | indeed_scraper.py:69 | `str(i)` is non-empty and holds only digits and minus signs |
| Strings.EncodeSpacesRoundTrip | indeed_scraper.py:45 | the encoded keywords hold no space; decoding `%20` gives back keywords that hold no `%` |
| Strings.EncodeSpacesNoSpace | indeed_scraper.py:45 | keywords without spaces are passed through unchanged |
| Strings.LowerFolds | indeed_scraper.py:62-66 | lower-casing keeps the length, changes only capital letters, leaves none behind, and is idempotent |
| PyValues.Bind | database_tools.py:122-131 | `None` binds as NULL and only as NULL; strings and integers bind (every integer: the signed 64-bit limit is listed under Left out); a list cannot be bound |
| QueryUrl.RegionCode | indeed_scraper.py:49-52 | a region code is bound exactly for `'ca'` and `'com'`, and it equals the country |
| QueryUrl.StartOffsetAddressesPage | indeed_scraper.py:86-89 | the offset for page `p >= 1` is a multiple of ten, and offset / 10 + 1 == p |
| QueryUrl.BuildOutcome | indeed_scraper.py:42-93 | a URL is returned exactly for the accepted parameters. Errors come in source order: missing keywords, missing country, unknown country, radius without location, then `ValueError` for a sort order other than `date`, `relevance` or `None`, then the unbound offset of a page below 1. `self.url` is untouched until the region is bound. Every written value starts with the host and the encoded keywords. The URL is the last value written, with terms in the order q, l, radius, sort, start |
| QueryUrl.LocationTermPresent | indeed_scraper.py:58-59 | `&l=` is present exactly when a location is given, followed by the location verbatim |
| QueryUrl.RadiusTermPresent | indeed_scraper.py:62-69 | a radius term is present exactly when radius and location are given and the location is not `remote` in any letter case |
| QueryUrl.DefaultsRaise | indeed_scraper.py:32-62 | with every default the call raises for the missing keywords; with keywords and a known country but no location, the default radius raises at `location.lower()` after the base URL was written |
| QueryUrl.PageUrl | indeed_scraper.py:84-90 | when the URL without a page is accepted, every page `n >= 1` is accepted too; its URL is that URL plus `&start=` and the offset of `n` |
| QueryUrl.PageUrlsDistinct | indeed_scraper.py:84-90 | different pages give different URLs |
| Markdown.FindFrom | indeed_scraper.py:280 | the scan for `]` or `)` stops at the first occurrence at or after the start, or at the end |
| Markdown.LinkAt | indeed_scraper.py:280 | a match found at the start of the text is a non-empty label without `]` and a non-empty target without `)`, and the text starts with `[label](target)` |
| Markdown.LinkAtFinds | indeed_scraper.py:280 | conversely, every such link at the start of the text is found, with exactly its label and target |
| Markdown.DropNewlines | indeed_scraper.py:281 | the result holds no `\n`, is no longer than the input, and equals an input without `\n` |
| Markdown.DropNewlinesKeeps | indeed_scraper.py:281 | a newline is dropped and every other character kept; dropping distributes over concatenation, so the kept characters stay in order |
| Markdown.DefaultTargetRemoved | indeed_scraper.py:277-281 | with the default `replace_with`, a link whose text holds no newline becomes `[text](<url removed>)` |
| Markdown.RemoveLinks | indeed_scraper.py:277-281 | the output of `remove_links_from_markdown` holds no `\n` |
| Markdown.LinkRewritten | indeed_scraper.py:278-281 | a link at the start keeps its label, gets `replace_with` as target, and the rewrite resumes right after it |
| Markdown.NoBracketUnchanged | indeed_scraper.py:277-281 | input without `[` comes back only stripped of newlines |
| Markdown.Pieces | indeed_scraper.py:280 | cutting the input into characters and links yields only well-formed links |
| Markdown.PiecesRoundTrip | indeed_scraper.py:280 | the pieces written out with their own targets are the input |
| Markdown.RewriteReplacesTargets | indeed_scraper.py:278-281 | the substitution writes out the same pieces with every link target replaced |
| Selection.BodyChallengeRequiresVerification | indeed_scraper.py:251-253 | a body showing `Verifying you are human` also passes the `Verify` test of `requires_human_verification` |
| Selection.LikeLiteral | indeed_scraper.py:302 | a LIKE pattern without wildcards matches exactly the texts equal to it up to ASCII letter case |
| Selection.LikePercent | indeed_scraper.py:303-304 | a leading `%` matches when the rest matches some suffix |
| Selection.LikeContains | indeed_scraper.py:304 | `LIKE '%q%'` holds exactly when `q` occurs somewhere, letter case aside |
| Selection.LikeAffixes | indeed_scraper.py:303 | `LIKE 'a%b'` holds exactly when the text starts with `a` and ends with `b`, without overlap |
| Selection.EmptyPatternMatches | indeed_scraper.py:302 | `LIKE ''` holds only for the empty text |
| Selection.VerifyPatternMatches | indeed_scraper.py:303 | `LIKE 'Verify% you are human'` holds exactly for texts starting with `Verify` and ending with ` you are human` (letter case aside) |
| Selection.JavaScriptPatternMatches | indeed_scraper.py:304 | `LIKE '%nable JavaScript%'` holds exactly for texts containing `nable JavaScript` (letter case aside) |
| Selection.PlaceholderPatterns | indeed_scraper.py:302-304 | a text matches one of the three patterns exactly when it is a placeholder |
| Selection.NeedsDescriptionIff | indeed_scraper.py:301-305 | the `WHERE` clause selects a posting exactly when its link is not NULL and its description is NULL or a placeholder text; both directions |
| Selection.NoPlaceholderDigits | indeed_scraper.py:301-305 | an integer description's text is never a placeholder |
| DatabaseTools.MissingKeyFirst | database_tools.py:119-131 | no key is reported missing exactly when all are present; otherwise the reported key is the first absent one |
| DatabaseTools.InsertPostingEffect | database_tools.py:118-131 | the call completes exactly for a record with all five keys, none holding a list; a raise writes nothing; `KeyError('job_company')` is raised exactly when only that key is absent. Otherwise a stored non-NULL id is ignored, or one row is appended with the record's values and no description. The key constraint is kept |
| DatabaseTools.InsertAllKeepsRows | database_tools.py:122-131 | repeated inserts keep the key constraint and only append: every row already stored stays as it was |
| DatabaseTools.InsertAllSeenIds | database_tools.py:122-131 | records whose ids are all already stored leave the table exactly as it was |
| DatabaseTools.SetDescriptionEffect | database_tools.py:141-149 | the update keeps the row count. It changes only the description of rows holding the non-NULL id. Under the key constraint it changes at most one row |
| DatabaseTools.SetDescriptionNoMatch | database_tools.py:141-149 | a NULL or unknown id changes nothing |
| DatabaseTools.SetDescriptionUnique | database_tools.py:141-149 | the update keeps the key constraint |
| DatabaseTools.RowsOfSession | database_tools.py:134-139 | the result holds exactly the rows whose session is the given id, each as often as the table holds it |
| DatabaseTools.PlaceholderCount | database_tools.py:85 | the placeholder list holds one `?` per key and is `3n - 2` characters long |
| DatabaseTools.InsertSql | database_tools.py:82-86 | the statement names the `', '`-joined keys in order, and its value list holds exactly one `?` per key |
| DatabaseTools.FlattenValue | database_tools.py:157-159 | a list of strings becomes their `', '`-join, in list order, and non-lists are kept. No result is a list. A list holding a non-string raises |
| DatabaseTools.JobStore.constructor | database_tools.py:10-16 | a store over freshly set-up tables starts with no postings and no sessions |
| DatabaseTools.JobStore.UpdateJobPostings | database_tools.py:118-131 | the status and the new table are those `InsertPosting` gives, so `InsertPostingEffect` describes them; the key constraint is kept |
| DatabaseTools.JobStore.UpdateJobPostingDescription | database_tools.py:141-149 | an unbindable argument raises and changes nothing; otherwise the table is `SetDescription` of the old one |
| DatabaseTools.JobStore.StartNewSession | database_tools.py:99-116 | on a database error it returns `None` and the sessions stay. Otherwise it adds exactly one session under a fresh id, holding the given values and a NULL `ended_at` |
| DatabaseTools.JobStore.GetPostingsBySession | database_tools.py:134-139 | a `None` id fails; otherwise the result holds exactly that session's postings, each as often as the table holds it |
| DatabaseTools.InsertJobDetail | database_tools.py:151-167 | it raises `KeyError('job_unique_id')` exactly when that key is absent, before anything changes; otherwise it fails only with `TypeError`, and it succeeds whenever every value flattens. Keys never change. On success every value is its flattened old value, none is a list, and the SQL is built from the updated pairs. A `TypeError` leaves the earlier entries flattened and the rest untouched |
| Scraper.CurrentUrlDropsLastTwo | indeed_scraper.py:114-117 | with fewer than two `&` the result is empty. Otherwise result + `&` + the last two segments (which hold no `&`) is the URL |
| Scraper.CardRecord | indeed_scraper.py:199-227 | each field of a card's record is its looked-up value, or `None` where that lookup alone failed. Every record carries the session id. `job_company` is present (as `None`) exactly in the corrected layout |
| Scraper.PageRecords | indeed_scraper.py:199-227 | one record per card, and record `k` is the record of card `k`, in the order the page shows them |
| Scraper.PageNumbersAscend | indeed_scraper.py:167-190 | the requested page numbers are 1, 2, …, n, strictly increasing |
| Scraper.CrawlRecordsShape | indeed_scraper.py:184-227 | the crawl builds one record per card of the visited pages, each with four bindable fields and `job_company` exactly in the corrected layout |
| Scraper.AsWrittenCrawlStoresNothing | indeed_scraper.py:222-229 | as written, a crawl that sees any card raises `KeyError('job_company')` and stores nothing |
| Scraper.CompleteRecordsStored | database_tools.py:122-131 | records with all five keys and no list value never raise, and afterwards every record's string id is stored |
| Scraper.CorrectedCrawlStoresEveryCard | indeed_scraper.py:199-229 | with `job_company` supplied, the crawl never raises and every card that had an id is stored afterwards |
| Scraper.LaterPageUrl | indeed_scraper.py:188-190 | once the page-1 URL was built, the URL of every later page can be built too |
| Scraper.JobHtmlTries | indeed_scraper.py:239-270 | there are one to three calls, each made only after the previous one raised. The second call happens exactly when the first page had no body, and an exception escapes only after the third call. The answer is that of the first page with a body. Returned HTML is the job component or a body without the challenge banner. `None` comes from a body showing the banner, and the `Verify` test of `requires_human_verification` then fires (by `BodyChallengeRequiresVerification`) |
| Scraper.SelectForBackfillMembers | indeed_scraper.py:300-305 | the selection holds exactly the postings the `WHERE` clause accepts, each as often as the table holds it |
| Scraper.SelectForBackfillUnique | indeed_scraper.py:300-305 | under the key constraint, a non-NULL id is selected at most once |
| Scraper.Unbind | indeed_scraper.py:319-320 | the id read back from the table binds to the same SQL value again |
| Scraper.BackfillKeepsUnselected | indeed_scraper.py:313-320 | the backfill keeps the row count and changes only descriptions. Unselected postings, and postings with a NULL id, stay exactly as they were |
| Scraper.BackfilledUntouched | indeed_scraper.py:313-320 | a row whose id none of the handled postings carries is left exactly as it was |
| Scraper.BackfillStoresFetched | indeed_scraper.py:313-320 | after the loop has handled posting `i`, the row carrying its non-NULL id holds the markdown of the HTML fetched for it, or its old description when the fetch gave `None`; nothing else in that row changes. With `SelectForBackfillUnique` this applies to the selection of `main` |
| Scraper.BackfillPosting | indeed_scraper.py:316-320 | one posting: fetched HTML is stored as the markdown description of its id; `None` or an exception leaves the table |
| Scraper.UpdateJobDescriptions | indeed_scraper.py:298-322 | it stops at once, leaving the table as it was, exactly when nothing is selected. Otherwise it handles the selected postings in order. It ends either with every one handled, none of whose fetches raised, or aborted at the first posting whose third try raised, with only the postings before it handled. The table is `Backfilled` over the handled postings, whose rows `BackfillStoresFetched` describes |
| Scraper.StoreCards | indeed_scraper.py:199-229 | the cards of one page are stored as the one-by-one inserts of their records, and the first exception ends the page |
| Scraper.IndeedScraper.constructor | indeed_scraper.py:17-19 | a new scraper has no session id and no current or previous URL (the latter two set by the browser wrapper's constructor); no URL has been built or opened yet |
| Scraper.IndeedScraper.BuildQueryUrl | indeed_scraper.py:32-93 | the result is `Build`'s, and `self.url` holds the last value `Build` says was written (or is unchanged when nothing was) |
| Scraper.IndeedScraper.AppendSortAndPage | indeed_scraper.py:71-93 | appending the sort and page terms gives `Build`'s result and last write |
| Scraper.IndeedScraper.GoToUrl | selenium_base.py:91-94 | the previous URL becomes the old current one; the browser and the current URL become the target |
| Scraper.IndeedScraper.SearchForJobs | indeed_scraper.py:160-235 | pages 1, 2, … are requested in order, page 1 even for no pages, and `max_pages` of them when the crawl finishes. An unusable query raises before any session or posting is written, leaves `session_id` and the browser's URLs as they were, and leaves `self.url` holding the last value `build_query_url` wrote. Otherwise a session is recorded (or `None` on a database error), `self.url` is the last page's URL, and the table is the in-order insert of every visited card's record. On an exception it came from the last page requested, after every earlier page was stored whole |
| Scraper.IndeedScraper.WalkPages | indeed_scraper.py:184-234 | the page loop requests pages in order and leaves the last page's URL open. It stores the records of the pages it visited; on an exception the last page requested is the one that raised, and every page before it was stored whole |
| Scraper.IndeedScraper.VisitPage | indeed_scraper.py:186-234 | one pass opens page `n + 1` (page 1 is already open) and stores its cards after those of the pages before it |
| Scraper.IndeedScraper.TurnTo | indeed_scraper.py:187-191 | `current_url` is the trimmed browser address; a later page's URL is built and opened |
| Scraper.IndeedScraper.ScrapeCards | indeed_scraper.py:192-232 | the page's cards are stored, and `previous_url` is set only when every card was stored |
| Scraper.IndeedScraper.OpenPage | indeed_scraper.py:189-191 | the URL of page `n` is built and the browser is sent to it |

## Specification functions

These functions model source code directly. Their own contracts, where they have one (`DatabaseTools.Keys`
gives only its length and entries), say little; their properties are stated by the members in the
right-hand column, each of which has a row above.

| function | models | properties stated by |
|---|---|---|
| `QueryUrl.Build` | `build_query_url`, `indeed_scraper.py:42-93` | `QueryUrl.BuildOutcome`, `QueryUrl.DefaultsRaise`, `QueryUrl.PageUrl`, `Scraper.IndeedScraper.BuildQueryUrl` |
| `Markdown.Rewrite` | the `re.sub` of `remove_links_from_markdown`, `indeed_scraper.py:278-280` | `Markdown.LinkRewritten`, `Markdown.RewriteReplacesTargets` |
| `Scraper.CurrentUrlOf` | `get_current_url`, `indeed_scraper.py:114-117` | `Scraper.CurrentUrlDropsLastTwo` |
| `Scraper.DescriptionHtml`, `Scraper.GetJobHtml` | `get_description_html` and `get_job_html`, `indeed_scraper.py:239-270` | `Scraper.JobHtmlTries` |
| `Scraper.SelectForBackfill` | the `SELECT` of `main`, `indeed_scraper.py:300-305` | `Scraper.SelectForBackfillMembers` |
| `Scraper.BackfillStep`, `Scraper.Backfilled` | the backfill loop body, `indeed_scraper.py:313-320` | `Scraper.BackfillPosting`, `Scraper.BackfillKeepsUnselected`, `Scraper.BackfilledUntouched`, `Scraper.BackfillStoresFetched`, `Scraper.UpdateJobDescriptions` |
| `Scraper.CrawlRecords`, `Scraper.PageNumbers` | the page loop, `indeed_scraper.py:184-233` | `Scraper.CrawlRecordsShape`, `Scraper.PageNumbersAscend`, `Scraper.IndeedScraper.WalkPages` |
| `DatabaseTools.InsertPosting`, `DatabaseTools.InsertAll` | `update_job_postings`, `database_tools.py:118-131` | `DatabaseTools.InsertPostingEffect`, `DatabaseTools.InsertAllKeepsRows`, `DatabaseTools.InsertAllSeenIds` |
| `DatabaseTools.SetDescription` | `update_job_posting_description`, `database_tools.py:141-149` | `DatabaseTools.SetDescriptionEffect`, `DatabaseTools.SetDescriptionNoMatch`, `DatabaseTools.SetDescriptionUnique` |
| `DatabaseTools.Placeholders`, `DatabaseTools.Keys` | `insert_record`, `database_tools.py:84-85` | `DatabaseTools.PlaceholderCount`, `DatabaseTools.InsertSql` |
| `Selection.Like` | SQLite `LIKE`, `indeed_scraper.py:302-304` | `Selection.LikeLiteral`, `Selection.LikePercent`, `Selection.LikeContains`, `Selection.LikeAffixes` |
| `Selection.NeedsDescription` | the `WHERE` clause, `indeed_scraper.py:301-305` | `Selection.NeedsDescriptionIff` |
| `Selection.RequiresHumanVerification`, `Selection.BodyShowsChallenge` | `indeed_scraper.py:144`, `251` | `Selection.BodyChallengeRequiresVerification`, `Strings.ContainsIff` |
| `Strings.EncodeSpaces` | `keywords.replace(' ', '%20')`, `indeed_scraper.py:45` | `Strings.EncodeSpacesRoundTrip`, `Strings.EncodeSpacesNoSpace` |
| `Strings.Contains` | Python's `in`, `indeed_scraper.py:144` | `Strings.ContainsIff`, `Strings.ContainsPrefixOfPattern` |
| `Strings.Lower` | `location.lower()`, `indeed_scraper.py:62-66` | `Strings.LowerFolds`, `QueryUrl.RadiusTermPresent` |
| `Strings.Join` | `str.join`, `indeed_scraper.py:117` | `Strings.SplitJoin`, `Strings.JoinSplit` |
| `Strings.NatToString`, `Strings.IntToString` | `str()` of the offset and the radius, `indeed_scraper.py:69`, `90` | `Strings.NatToStringDigits`, `Strings.ParseNatToString`, `Strings.IntToStringChars` |

## Left out

- The browser:
  - opening and closing it, and `time.sleep`;
  - `close_popup`, `click_next`, `click_prev` and `get_filter_items` (its JSON is the `filterTags` parameter);
  - the cursor click and window calls of `requires_human_verification`, whose result the crawl ignores;
  - redirects: the browser's address is the last URL it was sent to.
- `requires_human_verification` raises `KeyError` for any browser but Firefox, but only when `'Verify'` is in the page source (`indeed_scraper.py:144-151`). This is not modelled, because `main` always uses Firefox.
- The card lookups (`find_element`) are inputs: each card arrives with its three lookup outcomes.
- `html_to_markdown` calls `markdownify`, a foreign library. It is the `toMarkdown` parameter of the backfill.
- Logging and `print`.
- `DatabaseTools` plumbing:
  - `setup`, `connect`, the DDL, `run_sql`, `list_tables` and the pandas frame of `sql_to_df`;
  - running the statements of `insert_record` and `insert_job_detail`: only their SQL text and the in-place flattening are modelled, not the rows they would write;
  - the `sqlite3.Error` that `StartNewSession` catches is the `failed` parameter;
  - `lastrowid` is modelled as a counter that hands out fresh ids;
  - the tables a store starts with: a new `JobStore` has empty tables, as on the first run against a fresh database file. Later `DatabaseTools()` objects share that one store, under the assumption about the DDL stated above.
- PyValues.Bind: ints outside the signed 64-bit range raise `OverflowError` in sqlite3 and are not modelled; every `int` binds. That error is not a `sqlite3.Error`, so `start_new_session` with `n_pages >= 2**63` (`database_tools.py:103-116`) would raise instead of recording a session or returning `None`; the model's `StartNewSession` records one.
- DatabaseTools.JobStore.GetPostingsBySession: only integer ids and `None` are modelled. The id is pasted into the SQL text, so a string id would be read as SQL.
- Scraper.IndeedScraper.SearchForJobs:
  - `search_params['location']` raises `KeyError` when the caller leaves the location out. The model does not tell an omitted location apart from `None`.
  - `max_pages` is an integer.
- `get_job_html` calls `go_to_url`, which updates `current_url`/`previous_url`, during the backfill. That bookkeeping is not modelled.
- The challenge check between the tries of `get_job_html` is not modelled; it does not change the result.
- `main`:
  - its flags are not modelled;
  - `exit()` when nothing is selected is the `NothingToUpdate` outcome;
  - the second call of `main` with `max_pages=0` is not modelled.
- Strings.Lower: only ASCII letters are lowered. Python's full Unicode `lower()` is not modelled.
- Selection.LikeValue: REAL and BLOB column values are not modelled. The model's columns hold only NULL, text and integers.

## Findings

| source | as written | input that shows it | evidently intended | confidence | as-written member | corrected member |
|---|---|---|---|---|---|---|
| indeed_scraper.py:222-229 | the record built for each card has no `job_company` key, while `update_job_postings` reads `obj['job_company']` (database_tools.py:131) | any crawl whose first visited page shows one card, e.g. a card with id `"a"`, no title and no link | each card is stored with `job_company` as `None` | not executed | Scraper.AsWrittenCrawlStoresNothing | Scraper.CorrectedCrawlStoresEveryCard |

The crawl methods take a `RecordLayout` parameter. `AsWritten` builds the record as the source
does; `WithCompany` builds the corrected one, which adds `job_company: None`.
