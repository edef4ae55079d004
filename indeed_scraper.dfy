/** `IndeedScraper`: the URL builder as the imperative method it is, `get_current_url`, the
    listing crawl of `search_for_jobs` over cards given as input, the description-fetch ladder
    of `get_job_html`, and the description backfill loop of `main`. The browser is abstracted
    into the values it would show: the URL it was sent to, the cards on each result page and
    the state of each description page. */
module Scraper {
  import opened Base
  import opened Strings
  import opened PyValues
  import opened QueryUrl
  import opened Selection
  import opened DatabaseTools

  /** `get_current_url`: the browser's URL without its last two `&`-separated segments. */
  function CurrentUrlOf(url: string): string {
    var parts := Split(url, '&');
    Join(parts[..if |parts| >= 2 then |parts| - 2 else 0], "&")
  }

  /** With fewer than two `&` nothing is left; otherwise the result, `&`, and the last two
      segments (which hold no `&`) make up the URL again. */
  lemma CurrentUrlDropsLastTwo(url: string)
    ensures |Split(url, '&')| == Count(url, '&') + 1
    ensures Count(url, '&') < 2 ==> CurrentUrlOf(url) == ""
    ensures var parts := Split(url, '&'); var n := |parts|;
      Count(url, '&') >= 2 ==>
        && '&' !in parts[n - 2] && '&' !in parts[n - 1]
        && CurrentUrlOf(url) + "&" + parts[n - 2] + "&" + parts[n - 1] == url
  {
    SplitJoin(url, '&');
    var parts := Split(url, '&');
    var n := |parts|;
    if n >= 3 {
      JoinAppend(parts[..n - 2], parts[n - 2..], "&");
      assert parts[..n - 2] + parts[n - 2..] == parts;
      assert parts[n - 2..][1..] == [parts[n - 1]];
      assert Join(parts[n - 2..], "&") == parts[n - 2] + "&" + parts[n - 1];
    } else {
      assert parts[..0] == [];
      assert CurrentUrlOf(url) == "";
      if n == 2 {
        assert Join(parts, "&") == parts[0] + "&" + parts[1];
      }
    }
  }

  /** The search parameters of one crawl: everything `build_query_url` takes but the page. */
  datatype SearchParams = SearchParams(
    keywords: Option<string>,
    country: Option<string>,
    location: Option<string>,
    sortBy: Option<string>,
    radius: Option<int>)

  function WithPage(sp: SearchParams, page: int): QueryParams {
    QueryParams(sp.keywords, sp.country, sp.location, sp.sortBy, sp.radius, Some(page))
  }

  /** What the three lookups on one job card produced; `None` where the lookup raised. */
  datatype Card = Card(id: Option<string>, title: Option<string>, link: Option<string>)

  /** `AsWritten` builds the record dictionary as the source does, without `job_company`;
      `WithCompany` adds `job_company: None`, the key `update_job_postings` reads. */
  datatype RecordLayout = AsWritten | WithCompany

  /** The record built for one card: each field is the value looked up, or `None` when that
      lookup alone failed, and every record carries the session id. */
  function CardRecord(card: Card, session: Option<int>, layout: RecordLayout): (r: map<string, PyValue>)
    ensures "job_unique_id" in r && r["job_unique_id"] == OptionalStr(card.id)
    ensures "job_title" in r && r["job_title"] == OptionalStr(card.title)
    ensures "job_link" in r && r["job_link"] == OptionalStr(card.link)
    ensures "session_id" in r && r["session_id"] == OptionalInt(session)
    ensures "job_company" in r <==> layout == WithCompany
    ensures "job_company" in r ==> r["job_company"] == PyNone
  {
    var base := map["job_unique_id" := OptionalStr(card.id), "job_title" := OptionalStr(card.title),
                    "job_link" := OptionalStr(card.link), "session_id" := OptionalInt(session)];
    if layout == WithCompany then base["job_company" := PyNone] else base
  }

  /** One record per card, in the order the cards appear on the page. */
  function PageRecords(cards: seq<Card>, session: Option<int>, layout: RecordLayout): (r: seq<map<string, PyValue>>)
    ensures |r| == |cards|
    ensures forall k :: 0 <= k < |cards| ==> r[k] == CardRecord(cards[k], session, layout)
  {
    seq(|cards|, k requires 0 <= k < |cards| => CardRecord(cards[k], session, layout))
  }

  /** The cards rendered on result page `k` (0-based); pages past the input show none. */
  function PageAt(pages: seq<seq<Card>>, k: nat): seq<Card> {
    if k < |pages| then pages[k] else []
  }

  /** The records of the first `n` result pages, page by page, card by card. */
  function CrawlRecords(pages: seq<seq<Card>>, n: nat, session: Option<int>, layout: RecordLayout): seq<map<string, PyValue>>
  {
    if n == 0 then [] else CrawlRecords(pages, n - 1, session, layout) + PageRecords(PageAt(pages, n - 1), session, layout)
  }

  /** The page numbers `1, 2, ..., n`, in the order the crawl requests them. */
  function PageNumbers(n: nat): seq<int> {
    if n == 0 then [] else PageNumbers(n - 1) + [n]
  }

  lemma {:induction false} PageNumbersLength(n: nat)
    ensures |PageNumbers(n)| == n
  {
    if n > 0 {
      PageNumbersLength(n - 1);
    }
  }

  /** The requested pages are numbered from 1, consecutively, each once and in increasing order. */
  lemma {:induction false} PageNumbersAscend(n: nat)
    ensures |PageNumbers(n)| == n
    ensures forall i :: 0 <= i < n ==> PageNumbers(n)[i] == i + 1
    ensures forall i, j :: 0 <= i < j < n ==> PageNumbers(n)[i] < PageNumbers(n)[j]
  {
    if n > 0 {
      PageNumbersAscend(n - 1);
    }
  }

  /** A crawl that raised on page `n`: pages 1 to `n - 1` were stored whole, and `rows'` is the
      table the records of page `n` left when one of them raised `error`. */
  predicate RaisedOnPage(rows: seq<Row>, pages: seq<seq<Card>>, n: nat, session: Option<int>, layout: RecordLayout,
                         error: PyError, rows': seq<Row>)
  {
    && n >= 1
    && InsertAll(rows, CrawlRecords(pages, n - 1, session, layout)).0.Completed?
    && (Raised(error), rows') == InsertAll(rows, CrawlRecords(pages, n, session, layout))
  }

  /** How `search_for_jobs` ends. */
  datatype CrawlStatus = Finished | QueryRaised(queryError: QueryError) | PostingRaised(postingError: PyError)

  /** The shape every crawl record has: the four values the crawl reads, none of them a list,
      and `job_company` (holding `None`) exactly in the corrected layout. */
  predicate RecordShape(obj: map<string, PyValue>, layout: RecordLayout) {
    && "job_unique_id" in obj && !obj["job_unique_id"].PyList?
    && "job_title" in obj && !obj["job_title"].PyList?
    && "job_link" in obj && !obj["job_link"].PyList?
    && "session_id" in obj && !obj["session_id"].PyList?
    && ("job_company" in obj <==> layout == WithCompany)
    && ("job_company" in obj ==> obj["job_company"] == PyNone)
  }

  /** The number of cards on the first `n` result pages. */
  function CardCount(pages: seq<seq<Card>>, n: nat): nat {
    if n == 0 then 0 else CardCount(pages, n - 1) + |PageAt(pages, n - 1)|
  }

  /** One record per card of the visited pages, each of the layout's shape. */
  lemma {:induction false} CrawlRecordsShape(pages: seq<seq<Card>>, n: nat, session: Option<int>, layout: RecordLayout)
    ensures |CrawlRecords(pages, n, session, layout)| == CardCount(pages, n)
    ensures forall k :: 0 <= k < |CrawlRecords(pages, n, session, layout)| ==>
              RecordShape(CrawlRecords(pages, n, session, layout)[k], layout)
  {
    if n > 0 {
      CrawlRecordsShape(pages, n - 1, session, layout);
      var a := CrawlRecords(pages, n - 1, session, layout);
      var b := PageRecords(PageAt(pages, n - 1), session, layout);
      forall k | 0 <= k < |a + b| ensures RecordShape((a + b)[k], layout) {
        if k < |a| {
          assert (a + b)[k] == a[k];
        } else {
          assert (a + b)[k] == CardRecord(PageAt(pages, n - 1)[k - |a|], session, layout);
        }
      }
    }
  }

  /** As written, the first record already raises `KeyError('job_company')`: a crawl that sees
      any card stores nothing and ends with that exception. */
  lemma AsWrittenCrawlStoresNothing(rows: seq<Row>, pages: seq<seq<Card>>, n: nat, session: Option<int>)
    requires UniqueIds(rows)
    ensures InsertAll(rows, CrawlRecords(pages, n, session, AsWritten)) ==
              if CardCount(pages, n) == 0 then (Completed, rows) else (Raised(KeyError("job_company")), rows)
  {
    CrawlRecordsShape(pages, n, session, AsWritten);
    var objs := CrawlRecords(pages, n, session, AsWritten);
    if objs != [] {
      assert RecordShape(objs[0], AsWritten);
      InsertPostingEffect(rows, objs[0]);
    }
  }

  /** Complete records, none holding a list, never raise: every call completes, and afterwards
      every record's id is stored (the first record with a given id wins). */
  lemma {:induction false} CompleteRecordsStored(rows: seq<Row>, objs: seq<map<string, PyValue>>)
    requires UniqueIds(rows)
    requires forall k :: 0 <= k < |objs| ==> CompleteRecord(objs[k])
    ensures InsertAll(rows, objs).0 == Completed
    ensures forall k :: 0 <= k < |objs| && "job_unique_id" in objs[k] && objs[k]["job_unique_id"].PyStr? ==>
              HasId(InsertAll(rows, objs).1, Text(objs[k]["job_unique_id"].s))
    decreases |objs|
  {
    if objs != [] {
      var obj := objs[0];
      assert CompleteRecord(obj);
      InsertPostingEffect(rows, obj);
      var rows' := InsertPosting(rows, obj).1;
      assert InsertPosting(rows, obj).0 == Completed;
      CompleteRecordsStored(rows', objs[1..]);
      InsertAllKeepsRows(rows', objs[1..]);
      var final := InsertAll(rows', objs[1..]).1;
      if obj["job_unique_id"].PyStr? {
        var id := Text(obj["job_unique_id"].s);
        if !HasId(rows, id) {
          assert rows'[|rows|].id == id;
        }
        HasIdKept(rows', final, Text(obj["job_unique_id"].s));
      }
      forall k | 1 <= k < |objs| && "job_unique_id" in objs[k] && objs[k]["job_unique_id"].PyStr?
        ensures HasId(final, Text(objs[k]["job_unique_id"].s))
      {
        assert objs[k] == objs[1..][k - 1];
      }
    }
  }

  lemma HasIdKept(a: seq<Row>, b: seq<Row>, id: SqlValue)
    requires |b| >= |a| && b[..|a|] == a && HasId(a, id)
    ensures HasId(b, id)
  {
    var i :| 0 <= i < |a| && a[i].id == id;
    assert b[..|a|][i] == b[i];
  }

  /** With `job_company` supplied, the crawl never raises and every card that had an id is in
      the table afterwards. */
  lemma CorrectedCrawlStoresEveryCard(rows: seq<Row>, pages: seq<seq<Card>>, n: nat, session: Option<int>)
    requires UniqueIds(rows)
    ensures var objs := CrawlRecords(pages, n, session, WithCompany);
      && InsertAll(rows, objs).0 == Completed
      && forall k :: 0 <= k < |objs| && "job_unique_id" in objs[k] && objs[k]["job_unique_id"].PyStr? ==>
           HasId(InsertAll(rows, objs).1, Text(objs[k]["job_unique_id"].s))
  {
    CrawlRecordsShape(pages, n, session, WithCompany);
    var objs := CrawlRecords(pages, n, session, WithCompany);
    forall k | 0 <= k < |objs| ensures CompleteRecord(objs[k]) {
      assert RecordShape(objs[k], WithCompany);
    }
    CompleteRecordsStored(rows, objs);
  }

  /** When the page-1 URL succeeds, every later page's URL does too. */
  lemma LaterPageUrl(sp: SearchParams, n: int)
    requires Build(WithPage(sp, 1)).result.Ok? && n >= 1
    ensures Build(WithPage(sp, n)).result.Ok?
  {
    BuildOutcome(WithPage(sp, 1));
    BuildOutcome(WithPage(sp, n));
  }

  /** What a description page shows when `get_description_html` looks at it. */
  datatype DescriptionPage =
    | Component(html: string)    // the `jobsearch-JobComponent` element exists
    | BodyOnly(body: string)     // only the page body could be read
    | NoBody                     // not even the body: the lookup raises

  /** `get_description_html`: `None` when the body shows the challenge banner. */
  function DescriptionHtml(page: DescriptionPage): Result<Option<string>, PyError> {
    match page
    case Component(h) => Ok(Some(h))
    case BodyOnly(b) => if BodyShowsChallenge(b) then Ok(None) else Ok(Some(b))
    case NoBody => Err(NoSuchElement)
  }

  /** The three tries of `get_job_html`, and how many of them were made. */
  datatype Fetch = Fetch(html: Result<Option<string>, PyError>, calls: nat)

  /** `get_job_html`: up to three calls of `get_description_html`, each after the previous one
      raised; the third one's exception is not caught. */
  function GetJobHtml(first: DescriptionPage, second: DescriptionPage, third: DescriptionPage): Fetch
  {
    if !first.NoBody? then Fetch(DescriptionHtml(first), 1)
    else if !second.NoBody? then Fetch(DescriptionHtml(second), 2)
    else Fetch(DescriptionHtml(third), 3)
  }

  /** One to three calls, each made only after the previous one raised; the answer is that of
      the first page with a body, and only the third one's exception escapes. HTML that is
      returned is the job component or a body without the challenge banner; `None` comes from a
      body with the banner, on which `requires_human_verification` finds `Verify`. */
  lemma JobHtmlTries(first: DescriptionPage, second: DescriptionPage, third: DescriptionPage)
    ensures 1 <= GetJobHtml(first, second, third).calls <= 3
    ensures GetJobHtml(first, second, third).calls == 1 <==> !first.NoBody?
    ensures GetJobHtml(first, second, third).calls == 2 <==> first.NoBody? && !second.NoBody?
    ensures GetJobHtml(first, second, third).html.Err? ==> GetJobHtml(first, second, third).calls == 3
    ensures GetJobHtml(first, second, third).html.Err? <==> first.NoBody? && second.NoBody? && third.NoBody?
    ensures GetJobHtml(first, second, third).html == DescriptionHtml([first, second, third][GetJobHtml(first, second, third).calls - 1])
    ensures forall k :: 0 <= k < GetJobHtml(first, second, third).calls - 1 ==> [first, second, third][k].NoBody?
    ensures GetJobHtml(first, second, third).html.Ok? && GetJobHtml(first, second, third).html.value.Some? ==>
              var page := [first, second, third][GetJobHtml(first, second, third).calls - 1];
              page == Component(GetJobHtml(first, second, third).html.value.value) ||
              (page == BodyOnly(GetJobHtml(first, second, third).html.value.value) && !BodyShowsChallenge(GetJobHtml(first, second, third).html.value.value))
    // `None` comes from a body showing the challenge banner, whose `Verify` test then fires
    ensures GetJobHtml(first, second, third).html == Ok(None) ==>
              var page := [first, second, third][GetJobHtml(first, second, third).calls - 1];
              page.BodyOnly? && BodyShowsChallenge(page.body) && RequiresHumanVerification(page.body)
  {
    var f := GetJobHtml(first, second, third);
    var page := [first, second, third][f.calls - 1];
    if f.html == Ok(None) {
      BodyChallengeRequiresVerification(page.body);
    }
  }

  /** The pages one posting's link shows on the three tries. */
  datatype Responses = Responses(first: DescriptionPage, second: DescriptionPage, third: DescriptionPage)

  function FetchOf(r: Responses): Fetch {
    GetJobHtml(r.first, r.second, r.third)
  }

  /** The postings `main` selects for the backfill, in table order. */
  function SelectForBackfill(rows: seq<Row>): seq<Row>
    decreases |rows|
  {
    if rows == [] then []
    else (if NeedsDescription(rows[0].link, rows[0].description) then [rows[0]] else [])
         + SelectForBackfill(rows[1..])
  }

  /** The selection holds exactly the postings the WHERE clause accepts, each as often as the
      table holds it. */
  lemma {:induction false} SelectForBackfillMembers(rows: seq<Row>)
    ensures forall x :: x in SelectForBackfill(rows) <==> x in rows && NeedsDescription(x.link, x.description)
    ensures forall x :: multiset(SelectForBackfill(rows))[x] ==
              if NeedsDescription(x.link, x.description) then multiset(rows)[x] else 0
    decreases |rows|
  {
    if rows != [] {
      SelectForBackfillMembers(rows[1..]);
      assert rows == [rows[0]] + rows[1..];
    }
  }

  /** `row['job_unique_id']` handed back to Python. */
  function Unbind(v: SqlValue): (r: PyValue)
    ensures Bind(r) == Some(v)
  {
    match v
    case Null => PyNone
    case Text(t) => PyStr(t)
    case Integer(n) => PyInt(n)
  }

  /** One posting of the backfill: a fetched page stores the markdown of its HTML as the
      description of the rows with that id; `None`, or an exception, leaves the table as it is. */
  function BackfillStep(table: seq<Row>, id: SqlValue, responses: Responses, toMarkdown: string -> string): seq<Row> {
    var f := FetchOf(responses);
    if f.html.Ok? && f.html.value.Some? then SetDescription(table, id, Text(toMarkdown(f.html.value.value)))
    else table
  }

  /** The table after the first `n` selected postings were handled. */
  function Backfilled(table: seq<Row>, selected: seq<Row>, n: nat, respond: nat -> Responses,
                      toMarkdown: string -> string): seq<Row>
    requires n <= |selected|
  {
    if n == 0 then table
    else BackfillStep(Backfilled(table, selected, n - 1, respond, toMarkdown), selected[n - 1].id, respond(n - 1), toMarkdown)
  }

  /** The backfill changes descriptions only: ids and every other field stay, a posting that
      was not selected is left exactly as it was, and so is one with a NULL id, whose update
      matches no row (it is selected again on every run). */
  lemma {:induction false} BackfillKeepsUnselected(table: seq<Row>, selected: seq<Row>, n: nat,
                                                   respond: nat -> Responses, toMarkdown: string -> string)
    requires UniqueIds(table) && n <= |selected|
    requires forall x :: x in selected ==> x in table && NeedsDescription(x.link, x.description)
    ensures var t := Backfilled(table, selected, n, respond, toMarkdown);
      && |t| == |table|
      && (forall k :: 0 <= k < |t| ==> t[k] == table[k].(description := t[k].description))
      && (forall k :: 0 <= k < |t| && !NeedsDescription(table[k].link, table[k].description) ==> t[k] == table[k])
      && (forall k :: 0 <= k < |t| && table[k].id.Null? ==> t[k] == table[k])
  {
    if n > 0 {
      BackfillKeepsUnselected(table, selected, n - 1, respond, toMarkdown);
      var before := Backfilled(table, selected, n - 1, respond, toMarkdown);
      var t := Backfilled(table, selected, n, respond, toMarkdown);
      var id := selected[n - 1].id;
      var f := FetchOf(respond(n - 1));
      if f.html.Ok? && f.html.value.Some? {
        SetDescriptionEffect(before, id, Text(toMarkdown(f.html.value.value)));
      }
      forall k | 0 <= k < |t| && !NeedsDescription(table[k].link, table[k].description) ensures t[k] == table[k] {
        if !id.Null? {
          var j :| 0 <= j < |table| && table[j] == selected[n - 1];
          assert j != k;
          assert table[j].id != table[k].id;
          assert before[k].id != id;
        }
      }
    }
  }

  /** The selection keeps the key constraint: a non-NULL id is selected at most once. */
  lemma {:induction false} SelectForBackfillUnique(rows: seq<Row>)
    requires UniqueIds(rows)
    ensures UniqueIds(SelectForBackfill(rows))
    decreases |rows|
  {
    if rows != [] {
      var rest := SelectForBackfill(rows[1..]);
      SelectForBackfillUnique(rows[1..]);
      SelectForBackfillMembers(rows[1..]);
      var s := SelectForBackfill(rows);
      if NeedsDescription(rows[0].link, rows[0].description) {
        assert s == [rows[0]] + rest;
        forall i, j | 0 <= i < j < |s| && !s[i].id.Null? ensures s[i].id != s[j].id {
          if i == 0 {
            assert s[j] == rest[j - 1] && rest[j - 1] in rows[1..];
            var m :| 0 <= m < |rows[1..]| && rows[1..][m] == rest[j - 1];
            assert rows[m + 1] == s[j];
          } else {
            assert s[i] == rest[i - 1] && s[j] == rest[j - 1];
          }
        }
      } else {
        assert s == rest;
      }
    }
  }

  lemma {:induction false} BackfilledLength(table: seq<Row>, selected: seq<Row>, n: nat, respond: nat -> Responses,
                                            toMarkdown: string -> string)
    requires n <= |selected|
    ensures |Backfilled(table, selected, n, respond, toMarkdown)| == |table|
  {
    if n > 0 {
      BackfilledLength(table, selected, n - 1, respond, toMarkdown);
    }
  }

  /** A row whose id none of the first `n` selected postings carries is left as it was. */
  lemma {:induction false} BackfilledUntouched(table: seq<Row>, selected: seq<Row>, n: nat, respond: nat -> Responses,
                                               toMarkdown: string -> string, k: nat)
    requires n <= |selected| && k < |table|
    requires forall j :: 0 <= j < n ==> selected[j].id != table[k].id
    ensures |Backfilled(table, selected, n, respond, toMarkdown)| == |table|
    ensures Backfilled(table, selected, n, respond, toMarkdown)[k] == table[k]
  {
    if n > 0 {
      BackfilledUntouched(table, selected, n - 1, respond, toMarkdown, k);
    }
  }

  /** What the backfill loop writes: after the first `n` selected postings, the row carrying the
      non-NULL id of posting `i < n` holds the markdown of the HTML fetched for it, or, when the
      fetch gave `None` or raised, the description it had. Nothing else in that row changes. */
  lemma {:induction false} BackfillStoresFetched(table: seq<Row>, selected: seq<Row>, n: nat, respond: nat -> Responses,
                                                 toMarkdown: string -> string, i: nat)
    requires UniqueIds(selected) && n <= |selected| && i < n && !selected[i].id.Null?
    ensures var t := Backfilled(table, selected, n, respond, toMarkdown);
      var f := FetchOf(respond(i));
      && |t| == |table|
      && forall k :: 0 <= k < |table| && table[k].id == selected[i].id ==>
           t[k] == if f.html.Ok? && f.html.value.Some? then table[k].(description := Text(toMarkdown(f.html.value.value)))
                   else table[k]
  {
    var t := Backfilled(table, selected, n, respond, toMarkdown);
    var before := Backfilled(table, selected, n - 1, respond, toMarkdown);
    if n == i + 1 {
      forall k | 0 <= k < |table| && table[k].id == selected[i].id ensures |before| == |table| && before[k] == table[k] {
        forall j | 0 <= j < i ensures selected[j].id != table[k].id {
          if !selected[j].id.Null? {
            assert selected[j].id != selected[i].id;
          }
        }
        BackfilledUntouched(table, selected, i, respond, toMarkdown, k);
      }
      BackfilledLength(table, selected, i, respond, toMarkdown);
    } else {
      BackfillStoresFetched(table, selected, n - 1, respond, toMarkdown, i);
      assert selected[n - 1].id != selected[i].id;
    }
  }

  /** The body of the backfill loop for one posting: `get_job_html`, then, when HTML came
      back, `html_to_markdown` and `update_job_posting_description`. */
  method BackfillPosting(db: JobStore, id: SqlValue, responses: Responses, toMarkdown: string -> string)
    returns (f: Fetch)
    requires db.Valid()
    modifies db`postings
    ensures db.Valid()
    ensures f == FetchOf(responses)
    ensures db.postings == BackfillStep(old(db.postings), id, responses, toMarkdown)
  {
    f := FetchOf(responses);
    if f.html.Ok? && f.html.value.Some? {
      var markdown := toMarkdown(f.html.value.value);
      var st := db.UpdateJobPostingDescription(Unbind(id), PyStr(markdown));
    }
  }

  /** How the backfill of `main` ends: `exit()` because nothing is selected, every selected
      posting handled, or an exception out of the third try at the posting with this index. */
  datatype BackfillStatus = NothingToUpdate | AllHandled | Aborted(index: nat)

  /** The backfill loop of `main`: select, then fetch each selected posting in table order and
      store the markdown of what was fetched. `toMarkdown` is `html_to_markdown`. */
  method UpdateJobDescriptions(db: JobStore, respond: nat -> Responses, toMarkdown: string -> string)
    returns (status: BackfillStatus)
    requires db.Valid()
    modifies db`postings
    ensures db.Valid()
    ensures var selected := SelectForBackfill(old(db.postings));
      && (status == NothingToUpdate <==> selected == [])
      && (status == NothingToUpdate ==> db.postings == old(db.postings))
      && (status == AllHandled ==> db.postings == Backfilled(old(db.postings), selected, |selected|, respond, toMarkdown))
      && (status.Aborted? ==>
            && status.index < |selected|
            && FetchOf(respond(status.index)).html.Err?
            && db.postings == Backfilled(old(db.postings), selected, status.index, respond, toMarkdown))
      // the first exception out of a third try ends the run: every posting before it was fetched
      && (status == AllHandled ==> forall k :: 0 <= k < |selected| ==> !FetchOf(respond(k)).html.Err?)
      && (status.Aborted? ==> forall k :: 0 <= k < status.index ==> !FetchOf(respond(k)).html.Err?)
  {
    var selected := SelectForBackfill(db.postings);
    if |selected| == 0 {
      return NothingToUpdate;
    }
    ghost var table := db.postings;
    var i := 0;
    while i < |selected|
      invariant 0 <= i <= |selected|
      invariant db.Valid()
      invariant db.postings == Backfilled(table, selected, i, respond, toMarkdown)
      invariant forall k :: 0 <= k < i ==> !FetchOf(respond(k)).html.Err?
    {
      var f := BackfillPosting(db, selected[i].id, respond(i), toMarkdown);
      if f.html.Err? {
        return Aborted(i);
      }
      i := i + 1;
    }
    status := AllHandled;
  }

  class IndeedScraper {
    /** `self.url`: the last URL built. */
    var url: Option<string>
    /** `self.session_id`. */
    var sessionId: Option<int>
    /** `self.current_url` and `self.previous_url` of the browser wrapper. */
    var currentUrl: Option<string>
    var previousUrl: Option<string>
    /** The address the browser shows (`driver.current_url`); redirects are not modelled. */
    var driverUrl: Option<string>

    constructor ()
      ensures url.None? && sessionId.None? && currentUrl.None? && previousUrl.None? && driverUrl.None?
    {
      url, sessionId, currentUrl, previousUrl, driverUrl := None, None, None, None, None;
    }

    /** `build_query_url`, step by step; `self.url` keeps whatever was written when it raises. */
    method BuildQueryUrl(p: QueryParams) returns (r: Result<string, QueryError>)
      modifies this`url
      ensures r == Build(p).result
      ensures url == if Build(p).lastWrite.Some? then Build(p).lastWrite else old(url)
    {
      if p.keywords.None? {
        return Err(KeywordsRequired);
      }
      var keywords := EncodeSpaces(p.keywords.value);
      if p.country.None? {
        return Err(CountryRequired);
      }
      var region: string;
      if p.country.value == CountryCanada {
        region := "ca";
      } else if p.country.value == CountryUsa {
        region := "com";
      } else {
        return Err(RegionCodeUnbound);
      }
      // `u` is the value of `self.url`, written back after every change
      var u := "https://www.indeed." + region + "/jobs?q=" + keywords;
      url := Some(u);
      ghost var base := u;
      if p.location.Some? {
        u := u + ("&l=" + p.location.value);
        url := Some(u);
      }
      if p.radius.Some? {
        // the first test already calls `location.lower()`, so the branch for a missing
        // location is never reached
        if p.location.None? {
          assert Build(p) == Built(Err(LocationHasNoLower), Some(base));
          return Err(LocationHasNoLower);
        }
        if Lower(p.location.value) != "remote" {
          u := u + ("&radius=" + IntToString(p.radius.value));
          url := Some(u);
        }
      }
      assert u == base + LocationTerm(p.location) + RadiusTerm(p.radius, p.location);
      r := AppendSortAndPage(p, u);
    }

    /** The second half of `build_query_url`: the sort and the page terms, appended to the URL
        built from the keywords, the country, the location and the radius. */
    method AppendSortAndPage(p: QueryParams, prefix: string) returns (r: Result<string, QueryError>)
      requires p.keywords.Some? && p.country.Some? && RegionCode(p.country.value).Some?
      requires !(p.radius.Some? && p.location.None?)
      requires prefix == BaseUrl(RegionCode(p.country.value).value, p.keywords.value) +
                    LocationTerm(p.location) + RadiusTerm(p.radius, p.location)
      requires url == Some(prefix)
      modifies this`url
      ensures r == Build(p).result
      ensures url == Build(p).lastWrite
    {
      var u := prefix;
      ghost var withRadius := u;
      if p.sortBy.Some? {
        if p.sortBy.value == SortDate || p.sortBy.value == SortRelevance {
          if p.sortBy.value == SortDate {
            u := u + "&sort=date";
            url := Some(u);
          }
        } else {
          assert Build(p) == Built(Err(InvalidSortBy), Some(withRadius));
          return Err(InvalidSortBy);
        }
      }
      assert u == withRadius + SortTerm(p.sortBy);
      ghost var withSort := u;
      if p.pageNumber.Some? {
        var offset: int;
        if p.pageNumber.value == 1 {
          offset := 0;
        } else if p.pageNumber.value > 1 {
          offset := (p.pageNumber.value - 1) * 10;
        } else {
          assert Build(p) == Built(Err(PageOffsetUnbound), Some(withSort));
          return Err(PageOffsetUnbound);
        }
        assert offset == StartOffset(p.pageNumber.value);
        u := u + ("&start=" + NatToString(offset));
        url := Some(u);
      }
      assert u == withSort + StartTerm(p.pageNumber);
      assert Build(p) == Built(Ok(u), url);
      r := Ok(u);
    }

    /** `go_to_url` of the browser wrapper. */
    method GoToUrl(target: string)
      modifies this`previousUrl, this`currentUrl, this`driverUrl
      ensures previousUrl == old(currentUrl) && currentUrl == Some(target) && driverUrl == Some(target)
    {
      previousUrl := currentUrl;
      driverUrl := Some(target);
      currentUrl := Some(target);
    }

    /** `search_for_jobs`: build and open the page-1 URL, record a session, then walk
        `maxPages` result pages, writing one record per card. `filterTags` is the JSON of the
        filter menu, `sessionFails` whether the session insert hits a database error, and
        `pages[k]` the cards of page `k + 1`. `requested` lists the page numbers URLs were
        built for, in the order they were built. */
    method SearchForJobs(maxPages: int, params: SearchParams, filterTags: string, db: JobStore,
                         pages: seq<seq<Card>>, sessionFails: bool, layout: RecordLayout)
      returns (requested: seq<int>, status: CrawlStatus)
      requires db.Valid()
      modifies this, db`postings, db`sessions, db`nextSessionId
      ensures db.Valid()
      // pages are requested from 1 upward, one per visited page, and page 1 even for no pages
      ensures |requested| >= 1 && requested == PageNumbers(|requested|)
      ensures status.Finished? ==> |requested| == if maxPages >= 1 then maxPages else 1
      ensures status.PostingRaised? ==> |requested| <= maxPages
      // an unusable query raises before any session or posting is written
      ensures status.QueryRaised? <==> Build(WithPage(params, 1)).result.Err?
      ensures status.QueryRaised? ==>
                && requested == [1] && status.queryError == Build(WithPage(params, 1)).result.error
                && db.sessions == old(db.sessions) && db.postings == old(db.postings)
                && sessionId == old(sessionId) && driverUrl == old(driverUrl)
                && currentUrl == old(currentUrl) && previousUrl == old(previousUrl)
                && url == (if Build(WithPage(params, 1)).lastWrite.Some? then Build(WithPage(params, 1)).lastWrite
                           else old(url))
      ensures !status.QueryRaised? ==>
                && url == Some(Build(WithPage(params, |requested|)).result.value)
                && driverUrl == url
                && (sessionId.None? <==> sessionFails)
                && (sessionId.None? ==> db.sessions == old(db.sessions))
                && (sessionId.Some? ==>
                      && sessionId.value !in old(db.sessions)
                      && db.sessions == old(db.sessions)[sessionId.value :=
                           Session(Text(params.keywords.value), Bind(OptionalStr(params.location)).value,
                                   Text(filterTags), Integer(maxPages), Null)])
      // the table holds what inserting the records of the visited pages, in order, leaves
      ensures status.Finished? ==>
                (Completed, db.postings) ==
                  InsertAll(old(db.postings), CrawlRecords(pages, if maxPages >= 0 then maxPages else 0, sessionId, layout))
      ensures status.PostingRaised? ==>
                RaisedOnPage(old(db.postings), pages, |requested|, sessionId, layout, status.postingError, db.postings)
    {
      var first := BuildQueryUrl(WithPage(params, 1));
      if first.Err? {
        return [1], QueryRaised(first.error);
      }
      BuildOutcome(WithPage(params, 1));
      GoToUrl(first.value);
      sessionId := db.StartNewSession(OptionalStr(params.keywords), OptionalStr(params.location),
                                      PyStr(filterTags), PyInt(maxPages), sessionFails);
      ghost var table := db.postings;
      assert table == old(db.postings);
      var st, lastPage;
      requested, lastPage, st := WalkPages(maxPages, params, db, pages, layout);
      PageNumbersLength(lastPage);
      assert |requested| == lastPage;
      if st.Raised? {
        status := PostingRaised(st.error);
      } else {
        status := Finished;
      }
    }

    /** The page loop of `search_for_jobs`: page 1 is already open; every later page is built
        and opened first, then each card of the page is stored under the current session. */
    method WalkPages(maxPages: int, params: SearchParams, db: JobStore, pages: seq<seq<Card>>, layout: RecordLayout)
      returns (requested: seq<int>, lastPage: nat, status: Status)
      requires db.Valid() && Build(WithPage(params, 1)).result.Ok?
      requires url == Some(Build(WithPage(params, 1)).result.value) && driverUrl == url
      modifies this`url, this`currentUrl, this`previousUrl, this`driverUrl, db`postings
      ensures db.Valid()
      ensures lastPage >= 1 && requested == PageNumbers(lastPage)
      ensures url == Some(Build(WithPage(params, lastPage)).result.value) && driverUrl == url
      ensures status.Completed? ==>
                && lastPage == (if maxPages >= 1 then maxPages else 1)
                && (status, db.postings) ==
                     InsertAll(old(db.postings), CrawlRecords(pages, if maxPages >= 0 then maxPages else 0, sessionId, layout))
      ensures status.Raised? ==>
                && lastPage <= maxPages
                && RaisedOnPage(old(db.postings), pages, lastPage, sessionId, layout, status.error, db.postings)
    {
      requested, lastPage := [1], 1;
      ghost var table := db.postings;
      var page := 0;
      while page < maxPages
        invariant 0 <= page <= (if maxPages >= 0 then maxPages else 0)
        invariant db.Valid()
        invariant lastPage == (if page >= 1 then page else 1) && requested == PageNumbers(lastPage)
        invariant url == Some(Build(WithPage(params, lastPage)).result.value) && driverUrl == url
        invariant (Completed, db.postings) == InsertAll(table, CrawlRecords(pages, page, sessionId, layout))
      {
        var st := VisitPage(page, params, db, pages, layout, table);
        if page != 0 {
          requested, lastPage := requested + [page + 1], page + 1;
        }
        if st.Raised? {
          assert lastPage == page + 1 && table == old(db.postings);
          assert RaisedOnPage(table, pages, page + 1, sessionId, layout, st.error, db.postings);
          return requested, lastPage, st;
        }
        page := page + 1;
      }
      status := Completed;
    }

    /** One pass of the page loop: open the page, then store its cards after those of the
        pages before it. */
    method VisitPage(page: nat, params: SearchParams, db: JobStore, pages: seq<seq<Card>>, layout: RecordLayout,
                     ghost table: seq<Row>)
      returns (status: Status)
      requires db.Valid() && Build(WithPage(params, 1)).result.Ok?
      requires url == Some(Build(WithPage(params, if page >= 1 then page else 1)).result.value) && driverUrl == url
      requires (Completed, db.postings) == InsertAll(table, CrawlRecords(pages, page, sessionId, layout))
      modifies this`url, this`currentUrl, this`previousUrl, this`driverUrl, db`postings
      ensures db.Valid()
      ensures url == Some(Build(WithPage(params, page + 1)).result.value) && driverUrl == url
      ensures (status, db.postings) == InsertAll(table, CrawlRecords(pages, page + 1, sessionId, layout))
    {
      TurnTo(page, params);
      ghost var before := db.postings;
      assert (Completed, before) == InsertAll(table, CrawlRecords(pages, page, sessionId, layout));
      CrawlStep(table, pages, page, sessionId, layout, before);
      status := ScrapeCards(db, PageAt(pages, page), layout);
    }

    /** The start of one pass of the page loop: note the current URL, then open the page
        unless it is the first. */
    method TurnTo(page: nat, params: SearchParams)
      requires Build(WithPage(params, 1)).result.Ok? && driverUrl.Some?
      modifies this`url, this`currentUrl, this`previousUrl, this`driverUrl
      ensures page == 0 ==> url == old(url) && driverUrl == old(driverUrl) && previousUrl == old(previousUrl)
      ensures page == 0 ==> currentUrl == Some(CurrentUrlOf(old(driverUrl).value))
      ensures page != 0 ==> url == Some(Build(WithPage(params, page + 1)).result.value) && driverUrl == url
      ensures page != 0 ==> currentUrl == url && previousUrl == Some(CurrentUrlOf(old(driverUrl).value))
    {
      currentUrl := Some(CurrentUrlOf(driverUrl.value));
      if page != 0 {
        OpenPage(params, page + 1);
      }
    }

    /** The rest of one pass: store the cards of the page, and note the URL again once every
        card is stored. */
    method ScrapeCards(db: JobStore, cards: seq<Card>, layout: RecordLayout) returns (status: Status)
      requires db.Valid() && driverUrl.Some?
      modifies this`previousUrl, db`postings
      ensures db.Valid()
      ensures (status, db.postings) == InsertAll(old(db.postings), PageRecords(cards, sessionId, layout))
      ensures previousUrl == if status.Completed? then Some(CurrentUrlOf(driverUrl.value)) else old(previousUrl)
    {
      // the popup and the challenge check change nothing the model keeps
      status := StoreCards(db, cards, sessionId, layout);
      if status.Completed? {
        previousUrl := Some(CurrentUrlOf(driverUrl.value));
      }
    }

    /** Build the URL of a later page and open it. */
    method OpenPage(params: SearchParams, n: int)
      requires n >= 1 && Build(WithPage(params, 1)).result.Ok?
      modifies this`url, this`currentUrl, this`previousUrl, this`driverUrl
      ensures url == Some(Build(WithPage(params, n)).result.value) && driverUrl == url
      ensures currentUrl == url && previousUrl == old(currentUrl)
    {
      LaterPageUrl(params, n);
      var next := BuildQueryUrl(WithPage(params, n));
      GoToUrl(next.value);
    }
  }

  /** The records of one result page, stored card by card; the first exception ends the page. */
  method StoreCards(db: JobStore, cards: seq<Card>, session: Option<int>, layout: RecordLayout)
    returns (status: Status)
    requires db.Valid()
    modifies db`postings
    ensures db.Valid()
    ensures (status, db.postings) == InsertAll(old(db.postings), PageRecords(cards, session, layout))
  {
    ghost var table := db.postings;
    ghost var records := PageRecords(cards, session, layout);
    var c := 0;
    while c < |cards|
      invariant 0 <= c <= |cards|
      invariant db.Valid()
      invariant (Completed, db.postings) == InsertAll(table, records[..c])
    {
      var record := CardRecord(cards[c], session, layout);
      InsertAllNext(table, records, c);
      status := db.UpdateJobPostings(record);
      if status.Raised? {
        InsertAllRaisedAt(table, records, c + 1);
        return;
      }
      c := c + 1;
    }
    assert records[..c] == records;
    status := Completed;
  }

  /** The records of one more page, inserted after those of the pages before it. */
  lemma CrawlStep(rows: seq<Row>, pages: seq<seq<Card>>, page: nat, session: Option<int>, layout: RecordLayout,
                  mid: seq<Row>)
    requires (Completed, mid) == InsertAll(rows, CrawlRecords(pages, page, session, layout))
    ensures InsertAll(rows, CrawlRecords(pages, page + 1, session, layout)) ==
              InsertAll(mid, PageRecords(PageAt(pages, page), session, layout))
  {
    InsertAllAppend(rows, CrawlRecords(pages, page, session, layout), PageRecords(PageAt(pages, page), session, layout));
  }

  /** The next record after a prefix that completed. */
  lemma InsertAllNext(rows: seq<Row>, objs: seq<map<string, PyValue>>, c: nat)
    requires c < |objs| && InsertAll(rows, objs[..c]).0.Completed?
    ensures InsertAll(rows, objs[..c + 1]) == InsertPosting(InsertAll(rows, objs[..c]).1, objs[c])
  {
    assert objs[..c + 1] == objs[..c] + [objs[c]];
    InsertAllSnoc(rows, objs[..c], objs[c]);
  }

  /** A prefix that raised is the whole story. */
  lemma InsertAllRaisedAt(rows: seq<Row>, objs: seq<map<string, PyValue>>, c: nat)
    requires c <= |objs| && InsertAll(rows, objs[..c]).0.Raised?
    ensures InsertAll(rows, objs) == InsertAll(rows, objs[..c])
  {
    assert objs == objs[..c] + objs[c..];
    InsertAllAppend(rows, objs[..c], objs[c..]);
  }

  /** Inserting two batches one after the other: the second runs only if the first completed. */
  lemma {:induction false} InsertAllAppend(rows: seq<Row>, a: seq<map<string, PyValue>>, b: seq<map<string, PyValue>>)
    ensures InsertAll(rows, a + b) ==
              if InsertAll(rows, a).0.Raised? then InsertAll(rows, a) else InsertAll(InsertAll(rows, a).1, b)
    decreases |a|
  {
    if a == [] {
      assert a + b == b;
    } else {
      assert (a + b)[1..] == a[1..] + b;
      var (status, rows') := InsertPosting(rows, a[0]);
      if status.Completed? {
        InsertAllAppend(rows', a[1..], b);
      }
    }
  }
}
