/** `DatabaseTools` over an in-memory model of its two tables. `job_postings` is the sequence of
    its rows in insertion order; `search_sessions` maps each row id to its row. The schema is
    not part of this model: `job_unique_id` is taken to be a UNIQUE key that admits NULL, so
    that NULL ids, which SQL never considers equal, each get a row of their own. */
module DatabaseTools {
  import opened Base
  import opened Strings
  import opened PyValues

  datatype Row = Row(
    id: SqlValue,
    title: SqlValue,
    link: SqlValue,
    session: SqlValue,
    company: SqlValue,
    description: SqlValue)

  datatype Session = Session(
    terms: SqlValue,
    location: SqlValue,
    filterTags: SqlValue,
    nPages: SqlValue,
    endedAt: SqlValue)

  /** The exceptions the modelled calls let through to their caller. */
  datatype PyError =
    | KeyError(key: string)
    | UnsupportedParameter
    | TypeError
    | NoSuchColumn
    | NoSuchElement

  datatype Status = Completed | Raised(error: PyError)

  /** The key constraint: no two rows share a non-NULL id. */
  predicate UniqueIds(rows: seq<Row>) {
    forall i, j :: 0 <= i < j < |rows| && !rows[i].id.Null? ==> rows[i].id != rows[j].id
  }

  predicate HasId(rows: seq<Row>, id: SqlValue) {
    exists i :: 0 <= i < |rows| && rows[i].id == id
  }

  /** The keys `update_job_postings` reads, in the order it reads them. */
  const PostingKeys: seq<string> := ["job_unique_id", "job_title", "job_link", "session_id", "job_company"]

  /** The first of `keys` that `obj` lacks: the `KeyError` a lookup in that order raises. */
  function MissingKey(obj: map<string, PyValue>, keys: seq<string>): Option<string>
    decreases |keys|
  {
    if keys == [] then None
    else if keys[0] !in obj then Some(keys[0])
    else MissingKey(obj, keys[1..])
  }

  /** Nothing is missing exactly when every key is present; otherwise the key reported is
      absent and every key before it present. */
  lemma {:induction false} MissingKeyFirst(obj: map<string, PyValue>, keys: seq<string>)
    ensures MissingKey(obj, keys).None? <==> forall k :: 0 <= k < |keys| ==> keys[k] in obj
    ensures MissingKey(obj, keys).Some? ==>
              exists k :: 0 <= k < |keys| && keys[k] == MissingKey(obj, keys).value &&
                MissingKey(obj, keys).value !in obj && forall m :: 0 <= m < k ==> keys[m] in obj
    decreases |keys|
  {
    if keys != [] && keys[0] in obj {
      MissingKeyFirst(obj, keys[1..]);
      var r := MissingKey(obj, keys[1..]);
      if r.Some? {
        var k :| 0 <= k < |keys| - 1 && keys[1..][k] == r.value &&
                 r.value !in obj && forall m :: 0 <= m < k ==> keys[1..][m] in obj;
        assert keys[k + 1] == r.value;
        forall m | 0 <= m < k + 1 ensures keys[m] in obj {
          if m > 0 {
            assert keys[m] == keys[1..][m - 1];
          }
        }
      } else {
        forall k | 0 <= k < |keys| ensures keys[k] in obj {
          if k > 0 {
            assert keys[k] == keys[1..][k - 1];
          }
        }
      }
    }
  }

  /** `update_job_postings(obj)`: `INSERT OR IGNORE` of the five values read from `obj`. */
  function InsertPosting(rows: seq<Row>, obj: map<string, PyValue>): (Status, seq<Row>) {
    match MissingKey(obj, PostingKeys)
    case Some(k) => (Raised(KeyError(k)), rows)
    case None =>
      var values := [Bind(obj["job_unique_id"]), Bind(obj["job_title"]), Bind(obj["job_link"]),
                     Bind(obj["session_id"]), Bind(obj["job_company"])];
      if exists k :: 0 <= k < 5 && values[k].None? then (Raised(UnsupportedParameter), rows)
      else
        var row := Row(values[0].value, values[1].value, values[2].value, values[3].value,
                       values[4].value, Null);
        if !row.id.Null? && HasId(rows, row.id) then (Completed, rows)
        else (Completed, rows + [row])
  }

  /** A record `update_job_postings` can store: all five keys, none of them holding a list. */
  predicate CompleteRecord(obj: map<string, PyValue>) {
    forall m :: 0 <= m < 5 ==> PostingKeys[m] in obj && !obj[PostingKeys[m]].PyList?
  }

  /** A call completes exactly for a complete record; one that raises writes nothing; one that completes either ignores a record whose
      (non-NULL) id is already stored or appends exactly one row with the record's values and
      no description; the key constraint is kept. */
  lemma InsertPostingEffect(rows: seq<Row>, obj: map<string, PyValue>)
    requires UniqueIds(rows)
    ensures var (status, rows') := InsertPosting(rows, obj);
      && UniqueIds(rows')
      && (status.Completed? <==> CompleteRecord(obj))
      && (status.Raised? ==> rows' == rows)
      && (status == Raised(KeyError("job_company")) <==>
            "job_company" !in obj && forall k :: 0 <= k < 4 ==> PostingKeys[k] in obj)
      && (status.Completed? ==>
            && (forall k :: 0 <= k < 5 ==> PostingKeys[k] in obj)
            && var id := Bind(obj["job_unique_id"]).value;
               if !id.Null? && HasId(rows, id) then rows' == rows
               else rows' == rows + [Row(id, Bind(obj["job_title"]).value, Bind(obj["job_link"]).value,
                                         Bind(obj["session_id"]).value, Bind(obj["job_company"]).value, Null)])
  {
    var (status, rows') := InsertPosting(rows, obj);
    if status.Completed? && |rows'| == |rows| + 1 {
      var row := rows'[|rows|];
      assert row.id.Null? || !HasId(rows, row.id);
      forall i, j | 0 <= i < j < |rows'| && !rows'[i].id.Null? ensures rows'[i].id != rows'[j].id {
        if j == |rows| {
          assert rows'[i] == rows[i];
        }
      }
    }
    MissingKeyFirst(obj, PostingKeys);
    var missing := MissingKey(obj, PostingKeys);
    if missing.Some? && missing.value == "job_company" {
      var k :| 0 <= k < 5 && PostingKeys[k] == "job_company" && "job_company" !in obj &&
               forall m :: 0 <= m < k ==> PostingKeys[m] in obj;
      assert k == 4;
    }
  }

  /** `update_job_postings` called once per record, as the crawl does; the first exception
      ends the sequence of calls. */
  function InsertAll(rows: seq<Row>, objs: seq<map<string, PyValue>>): (Status, seq<Row>)
    decreases |objs|
  {
    if objs == [] then (Completed, rows)
    else
      var (status, rows') := InsertPosting(rows, objs[0]);
      if status.Raised? then (status, rows') else InsertAll(rows', objs[1..])
  }

  lemma {:induction false} InsertAllSnoc(rows: seq<Row>, objs: seq<map<string, PyValue>>, obj: map<string, PyValue>)
    requires InsertAll(rows, objs).0.Completed?
    ensures InsertAll(rows, objs + [obj]) == InsertPosting(InsertAll(rows, objs).1, obj)
    decreases |objs|
  {
    if objs == [] {
      assert [] + [obj] == [obj];
    } else {
      assert (objs + [obj])[1..] == objs[1..] + [obj];
      InsertAllSnoc(InsertPosting(rows, objs[0]).1, objs[1..], obj);
    }
  }

  /** First writer wins: a sequence of inserts keeps the key constraint and never changes or
      removes a row already stored; it only appends. */
  lemma {:induction false} InsertAllKeepsRows(rows: seq<Row>, objs: seq<map<string, PyValue>>)
    requires UniqueIds(rows)
    ensures UniqueIds(InsertAll(rows, objs).1)
    ensures |InsertAll(rows, objs).1| >= |rows| && InsertAll(rows, objs).1[..|rows|] == rows
    decreases |objs|
  {
    if objs != [] {
      InsertPostingEffect(rows, objs[0]);
      var (status, rows') := InsertPosting(rows, objs[0]);
      if status.Completed? {
        InsertAllKeepsRows(rows', objs[1..]);
        assert rows'[..|rows|] == rows;
      }
    }
  }

  /** A complete record, with nothing that cannot be bound, whose id is non-NULL and stored. */
  predicate AlreadyStored(rows: seq<Row>, obj: map<string, PyValue>) {
    && CompleteRecord(obj)
    && "job_unique_id" in obj && !obj["job_unique_id"].PyList?
    && obj["job_unique_id"] != PyNone && HasId(rows, Bind(obj["job_unique_id"]).value)
  }

  /** Records whose ids are all already stored leave the table exactly as it was. */
  lemma {:induction false} InsertAllSeenIds(rows: seq<Row>, objs: seq<map<string, PyValue>>)
    requires forall k :: 0 <= k < |objs| ==> AlreadyStored(rows, objs[k])
    ensures InsertAll(rows, objs) == (Completed, rows)
    decreases |objs|
  {
    if objs != [] {
      var obj := objs[0];
      MissingKeyFirst(obj, PostingKeys);
      assert forall m :: 0 <= m < 5 ==> PostingKeys[m] in obj && !obj[PostingKeys[m]].PyList?;
      assert InsertPosting(rows, obj) == (Completed, rows);
      InsertAllSeenIds(rows, objs[1..]);
    }
  }

  /** `UPDATE job_postings SET job_description = d WHERE job_unique_id = id`; `= NULL` matches no row. */
  function SetDescription(rows: seq<Row>, id: SqlValue, d: SqlValue): seq<Row>
  {
    seq(|rows|, k requires 0 <= k < |rows| =>
      if !id.Null? && rows[k].id == id then rows[k].(description := d) else rows[k])
  }

  /** Only the description of the rows holding `id` changes; under the key constraint that is
      at most one row. */
  lemma SetDescriptionEffect(rows: seq<Row>, id: SqlValue, d: SqlValue)
    ensures var rows' := SetDescription(rows, id, d);
      && |rows'| == |rows|
      && (forall k :: 0 <= k < |rows| ==>
            rows'[k] == if !id.Null? && rows[k].id == id then rows[k].(description := d) else rows[k])
      && (UniqueIds(rows) ==> forall i, j :: 0 <= i < j < |rows| ==> rows'[i] == rows[i] || rows'[j] == rows[j])
  {
  }

  /** An id that is NULL or not stored changes nothing, and the key constraint is kept. */
  lemma SetDescriptionNoMatch(rows: seq<Row>, id: SqlValue, d: SqlValue)
    requires id.Null? || !HasId(rows, id)
    ensures SetDescription(rows, id, d) == rows
  {
  }

  lemma SetDescriptionUnique(rows: seq<Row>, id: SqlValue, d: SqlValue)
    requires UniqueIds(rows)
    ensures UniqueIds(SetDescription(rows, id, d))
  {
  }

  /** `get_postings_by_session` for an integer id: the rows of that session, in table order. */
  function RowsOfSession(rows: seq<Row>, session: int): (r: seq<Row>)
    ensures forall x :: x in r <==> x in rows && x.session == Integer(session)
    ensures forall x :: multiset(r)[x] == if x.session == Integer(session) then multiset(rows)[x] else 0
    ensures |r| <= |rows|
    decreases |rows|
  {
    if rows == [] then []
    else
      assert rows == [rows[0]] + rows[1..];
      (if rows[0].session == Integer(session) then [rows[0]] else []) + RowsOfSession(rows[1..], session)
  }

  /** `', '.join(["?" for _ in data])`. */
  function Placeholders(n: nat): string {
    Join(seq(n, _ => "?"), ", ")
  }

  lemma {:induction false} PlaceholderCount(n: nat)
    ensures Count(Placeholders(n), '?') == n
    ensures n >= 1 ==> |Placeholders(n)| == 3 * n - 2
  {
    if n >= 2 {
      PlaceholderCount(n - 1);
      assert seq(n, _ => "?") == ["?"] + seq(n - 1, _ => "?");
      assert Placeholders(n) == "?" + ", " + Placeholders(n - 1);
      CountAppend("?" + ", ", Placeholders(n - 1), '?');
    } else if n == 1 {
      assert seq(n, _ => "?") == ["?"];
    }
  }

  function Keys(data: seq<(string, PyValue)>): (keys: seq<string>)
    ensures |keys| == |data| && forall k :: 0 <= k < |data| ==> keys[k] == data[k].0
  {
    seq(|data|, k requires 0 <= k < |data| => data[k].0)
  }

  /** The statement `insert_record` and `insert_job_detail` build: the columns in key order
      joined by `', '`, and one placeholder per key. */
  function InsertSql(table: string, data: seq<(string, PyValue)>): (sql: string)
    ensures var prefix := "INSERT INTO " + table + " (" + Join(Keys(data), ", ") + ") VALUES (";
      && StartsWith(sql, prefix)
      && EndsWith(sql, ")")
      && |sql| > |prefix|
      && Count(sql[|prefix|..|sql| - 1], '?') == |data|
  {
    var sql := "INSERT INTO " + table + " (" + Join(Keys(data), ", ") + ") VALUES (" + Placeholders(|data|) + ")";
    PlaceholderCount(|data|);
    assert sql[|"INSERT INTO " + table + " (" + Join(Keys(data), ", ") + ") VALUES ("|..|sql| - 1] == Placeholders(|data|);
    sql
  }

  /** Distinct keys: what a Python dict guarantees. */
  predicate IsDict(data: seq<(string, PyValue)>) {
    forall i, j :: 0 <= i < j < |data| ==> data[i].0 != data[j].0
  }

  /** The texts of a list of strings, in list order. */
  function Texts(items: seq<PyValue>): (ts: seq<string>)
    requires forall k :: 0 <= k < |items| ==> items[k].PyStr?
    ensures |ts| == |items| && forall k :: 0 <= k < |items| ==> items[k] == PyStr(ts[k])
  {
    seq(|items|, k requires 0 <= k < |items| => items[k].s)
  }

  /** `', '.join(value)` for a list value; other values are kept. Joining a list that holds
      anything but strings raises `TypeError` (modelled as no result). */
  function FlattenValue(v: PyValue): (r: Option<PyValue>)
    ensures r.Some? ==> !r.value.PyList?
    ensures !v.PyList? ==> r == Some(v)
    ensures v.PyList? && (forall k :: 0 <= k < |v.items| ==> v.items[k].PyStr?) ==>
              r == Some(PyStr(Join(Texts(v.items), ", ")))
    ensures v.PyList? && (exists k :: 0 <= k < |v.items| && !v.items[k].PyStr?) ==> r.None?
  {
    match v
    case PyList(items) =>
      if forall k :: 0 <= k < |items| ==> items[k].PyStr? then Some(PyStr(Join(Texts(items), ", ")))
      else None
    case _ => Some(v)
  }

  class JobStore {
    var postings: seq<Row>
    var sessions: map<int, Session>
    /** The row id SQLite hands out next for `search_sessions`. */
    var nextSessionId: int

    ghost predicate Valid()
      reads this
    {
      && UniqueIds(postings)
      && nextSessionId >= 1
      && forall id :: id in sessions ==> 1 <= id < nextSessionId
    }

    constructor ()
      ensures Valid()
      ensures postings == [] && sessions == map[]
    {
      postings := [];
      sessions := map[];
      nextSessionId := 1;
    }

    method UpdateJobPostings(obj: map<string, PyValue>) returns (status: Status)
      requires Valid()
      modifies this`postings
      ensures Valid()
      ensures (status, postings) == InsertPosting(old(postings), obj)
    {
      InsertPostingEffect(postings, obj);
      var missing := MissingKey(obj, PostingKeys);
      if missing.Some? {
        return Raised(KeyError(missing.value));
      }
      var id, title, link := Bind(obj["job_unique_id"]), Bind(obj["job_title"]), Bind(obj["job_link"]);
      var session, company := Bind(obj["session_id"]), Bind(obj["job_company"]);
      if id.None? || title.None? || link.None? || session.None? || company.None? {
        return Raised(UnsupportedParameter);
      }
      if !id.value.Null? && HasId(postings, id.value) {
        return Completed;
      }
      postings := postings + [Row(id.value, title.value, link.value, session.value, company.value, Null)];
      status := Completed;
    }

    method UpdateJobPostingDescription(id: PyValue, description: PyValue) returns (status: Status)
      requires Valid()
      modifies this`postings
      ensures Valid()
      ensures Bind(id).None? || Bind(description).None? ==>
                status == Raised(UnsupportedParameter) && postings == old(postings)
      ensures Bind(id).Some? && Bind(description).Some? ==>
                status == Completed &&
                postings == SetDescription(old(postings), Bind(id).value, Bind(description).value)
    {
      var key, text := Bind(id), Bind(description);
      if key.None? || text.None? {
        return Raised(UnsupportedParameter);
      }
      SetDescriptionUnique(postings, key.value, text.value);
      postings := SetDescription(postings, key.value, text.value);
      status := Completed;
    }

    /** `start_new_session`: `failed` stands for the `sqlite3.Error` the call catches (binding
        a list is one of them too), after which it returns `None`. */
    method StartNewSession(terms: PyValue, location: PyValue, filterTags: PyValue, nPages: PyValue, failed: bool)
      returns (id: Option<int>)
      requires Valid()
      modifies this`sessions, this`nextSessionId
      ensures Valid()
      ensures (failed || Bind(terms).None? || Bind(location).None? || Bind(filterTags).None? ||
               Bind(nPages).None?) <==> id.None?
      ensures id.None? ==> sessions == old(sessions)
      ensures id.Some? ==>
                && id.value !in old(sessions)
                && sessions == old(sessions)[id.value := Session(Bind(terms).value, Bind(location).value,
                                                                 Bind(filterTags).value, Bind(nPages).value, Null)]
    {
      var t, l, f, n := Bind(terms), Bind(location), Bind(filterTags), Bind(nPages);
      if failed || t.None? || l.None? || f.None? || n.None? {
        return None;
      }
      id := Some(nextSessionId);
      sessions := sessions[nextSessionId := Session(t.value, l.value, f.value, n.value, Null)];
      nextSessionId := nextSessionId + 1;
    }

    /** `get_postings_by_session`: the id is pasted into the SQL text, so `None` names a column
        that does not exist. */
    function GetPostingsBySession(sessionId: Option<int>): (r: Result<seq<Row>, PyError>)
      reads this
      ensures sessionId.None? <==> r.Err?
      ensures r.Ok? ==> forall x :: x in r.value <==> x in postings && x.session == Integer(sessionId.value)
      ensures r.Ok? ==> forall x :: multiset(r.value)[x] ==
                          if x.session == Integer(sessionId.value) then multiset(postings)[x] else 0
    {
      if sessionId.None? then Err(NoSuchColumn) else Ok(RowsOfSession(postings, sessionId.value))
    }
  }

  /** `insert_job_detail`: the id is printed first (a `KeyError` when it is missing), then every
      list value is replaced in place by its `', '`-join and the insert statement is built. A
      list holding a non-string raises `TypeError` with the earlier entries already replaced. */
  method InsertJobDetail(detail: array<(string, PyValue)>) returns (r: Result<string, PyError>)
    requires IsDict(detail[..])
    modifies detail
    ensures (forall k :: 0 <= k < detail.Length ==> old(detail[k]).0 != "job_unique_id") ==>
              r == Err(KeyError("job_unique_id")) && detail[..] == old(detail[..])
    ensures r == Err(KeyError("job_unique_id")) <==>
              forall k :: 0 <= k < detail.Length ==> old(detail[k]).0 != "job_unique_id"
    ensures && (exists k :: 0 <= k < detail.Length && old(detail[k]).0 == "job_unique_id")
            && (forall k :: 0 <= k < detail.Length ==> FlattenValue(old(detail[k]).1).Some?)
            ==> r.Ok?
    ensures r.Err? ==> r == Err(KeyError("job_unique_id")) || r == Err(TypeError)
    ensures forall k :: 0 <= k < detail.Length ==> detail[k].0 == old(detail[k]).0
    ensures r.Ok? ==>
              && (forall k :: 0 <= k < detail.Length ==> FlattenValue(old(detail[k]).1) == Some(detail[k].1))
              && (forall k :: 0 <= k < detail.Length ==> !detail[k].1.PyList?)
              && r.value == InsertSql("job_details", detail[..])
    ensures r == Err(TypeError) ==>
              exists i :: 0 <= i < detail.Length && FlattenValue(old(detail[i]).1).None? &&
                (forall k :: 0 <= k < i ==> FlattenValue(old(detail[k]).1) == Some(detail[k].1)) &&
                (forall k :: i <= k < detail.Length ==> detail[k] == old(detail[k]))
  {
    var found := false;
    var j := 0;
    while j < detail.Length
      invariant 0 <= j <= detail.Length
      invariant found <==> exists k :: 0 <= k < j && detail[k].0 == "job_unique_id"
    {
      if detail[j].0 == "job_unique_id" {
        found := true;
      }
      j := j + 1;
    }
    if !found {
      return Err(KeyError("job_unique_id"));
    }
    var i := 0;
    while i < detail.Length
      invariant 0 <= i <= detail.Length
      invariant forall k :: 0 <= k < detail.Length ==> detail[k].0 == old(detail[k]).0
      invariant forall k :: 0 <= k < i ==> FlattenValue(old(detail[k]).1) == Some(detail[k].1)
      invariant forall k :: i <= k < detail.Length ==> detail[k] == old(detail[k])
    {
      var (key, value) := detail[i];
      var flat := FlattenValue(value);
      if flat.None? {
        return Err(TypeError);
      }
      detail[i] := (key, flat.value);
      i := i + 1;
    }
    r := Ok(InsertSql("job_details", detail[..]));
  }
}
