/**
 * The collector of server.py: the events table, `ingest` (POST /api/events),
 * which appends one row, and `list_events` (GET /api/events), which reads the
 * table newest first.
 *
 * The table is an EventStore object whose `rows` field is the sequence of rows
 * in insertion order. The receipt time (`datetime.utcnow().isoformat()`) and
 * the new id (`uuid.uuid4()`) are parameters of Ingest.
 */
module Collector {
  import opened Wrappers
  import opened Text

  /** The request body of POST /api/events, after validation: every field optional. */
  datatype Candidate = Candidate(
    timestamp: Option<string>,
    sessionId: Option<string>,
    srcIp: Option<string>,
    srcPort: Option<int>,
    destService: Option<string>,
    username: Option<string>,
    command: Option<string>,
    metadata: Option<string>)

  /** A row of the events table (server.py lines 14-24); NULL is None. */
  datatype Row = Row(
    id: string,
    timestamp: string,
    sessionId: Option<string>,
    srcIp: Option<string>,
    srcPort: Option<int>,
    destService: Option<string>,
    username: Option<string>,
    command: Option<string>,
    metadata: string)

  /** The body of ingest's reply. */
  datatype Reply = Reply(status: string, id: string)

  // ---------------------------------------------------------------------------
  // ingest

  /**
   * `ev.get("timestamp") or now + "Z"`: Python's `or` replaces a timestamp
   * that is absent or empty by the receipt time.
   */
  function Stamp(given: Option<string>, now: string): (ts: string)
    ensures ts != []
    ensures given.Some? && given.value != [] ==> ts == given.value
    ensures given.None? || given.value == [] ==> ts == now + "Z"
  {
    if given.Some? && given.value != [] then given.value else now + "Z"
  }

  /**
   * Python's str() of an Optional[str]: the text itself, or "None" for None, so
   * absent metadata is stored exactly like the text "None".
   */
  function PyStr(v: Option<string>): (s: string)
    ensures v.Some? ==> s == v.value
    ensures s == "None" <==> v == None || v == Some("None")
  {
    match v
    case Some(s) => s
    case None => "None"
  }

  /**
   * The row ingest inserts for a candidate, given the new id and the receipt
   * time: the given fields unchanged, the timestamp defaulted, metadata as str().
   */
  function NewRow(c: Candidate, id: string, now: string): (r: Row)
    ensures r.id == id
    ensures r.timestamp != []
    ensures c.timestamp.Some? && c.timestamp.value != [] ==> r.timestamp == c.timestamp.value
    ensures c.timestamp.None? || c.timestamp.value == [] ==> r.timestamp == now + "Z"
    ensures && r.sessionId == c.sessionId && r.srcIp == c.srcIp && r.srcPort == c.srcPort
            && r.destService == c.destService && r.username == c.username && r.command == c.command
    ensures c.metadata.Some? ==> r.metadata == c.metadata.value
    ensures c.metadata.None? ==> r.metadata == "None"
  {
    Row(id, Stamp(c.timestamp, now), c.sessionId, c.srcIp, c.srcPort,
        c.destService, c.username, c.command, PyStr(c.metadata))
  }

  /** The ids in use. */
  function Ids(rows: seq<Row>): set<string> {
    set r | r in rows :: r.id
  }

  /** The table's invariant: `id` is the primary key, and every stored timestamp is non-empty. */
  ghost predicate WellFormed(rows: seq<Row>) {
    && (forall i, j :: 0 <= i < j < |rows| ==> rows[i].id != rows[j].id)
    && (forall i :: 0 <= i < |rows| ==> rows[i].timestamp != [])
  }

  // ---------------------------------------------------------------------------
  // list_events: ORDER BY timestamp DESC LIMIT ?

  /** SQLite's LIMIT: at most `limit` rows, and a negative limit bounds nothing. */
  function Bound(n: nat, limit: int): (k: nat)
    ensures k <= n
    ensures limit >= 0 ==> k <= limit
    ensures k < n ==> k == limit
  {
    if limit < 0 || limit >= n then n else limit
  }

  /** a may come before b in `ORDER BY timestamp DESC`: b's timestamp is not greater, as TEXT. */
  predicate NoOlder(a: Row, b: Row) {
    TextLe(b.timestamp, a.timestamp)
  }

  /** Timestamps do not increase along s. */
  ghost predicate Descending(s: seq<Row>) {
    forall i, j :: 0 <= i < j < |s| ==> NoOlder(s[i], s[j])
  }

  /**
   * What `ORDER BY timestamp DESC LIMIT limit` may return from rows: the right
   * number of stored rows, newest first, and no row left out is newer than the
   * last one returned. Rows with equal timestamps may come in any order.
   */
  ghost predicate IsListing(rows: seq<Row>, limit: int, sel: seq<Row>) {
    && |sel| == Bound(|rows|, limit)
    && multiset(sel) <= multiset(rows)
    && Descending(sel)
    && forall r :: r in multiset(rows) - multiset(sel) && sel != [] ==> NoOlder(sel[|sel| - 1], r)
  }

  /** A row no older than the head of a descending sequence can go in front of it. */
  lemma PrependDescending(x: Row, s: seq<Row>)
    requires Descending(s)
    requires s != [] ==> NoOlder(x, s[0])
    ensures Descending([x] + s)
  {
    forall j | 0 <= j < |s| ensures NoOlder(x, s[j]) {
      if j > 0 {
        TextLeTransitive(s[j].timestamp, s[0].timestamp, x.timestamp);
      }
    }
    var t := [x] + s;
    assert forall i :: 0 < i < |t| ==> t[i] == s[i - 1];
  }

  /** Insertion into a descending sequence. */
  function Insert(r: Row, s: seq<Row>): (t: seq<Row>)
    requires Descending(s)
    ensures |t| == |s| + 1
    ensures multiset(t) == multiset(s) + multiset{r}
    ensures t != [] && (t[0] == r || (s != [] && t[0] == s[0]))
    ensures Descending(t)
  {
    if s == [] || NoOlder(r, s[0]) then
      PrependDescending(r, s);
      [r] + s
    else
      TextLeTotal(r.timestamp, s[0].timestamp);
      assert s == [s[0]] + s[1..];
      var u := Insert(r, s[1..]);
      PrependDescending(s[0], u);
      [s[0]] + u
  }

  /** The rows in an order `ORDER BY timestamp DESC` may produce. */
  function SortDescending(rows: seq<Row>): (t: seq<Row>)
    ensures |t| == |rows|
    ensures multiset(t) == multiset(rows)
    ensures Descending(t)
  {
    if rows == [] then []
    else
      assert rows == [rows[0]] + rows[1..];
      Insert(rows[0], SortDescending(rows[1..]))
  }


  /** A prefix of a descending sequence is descending. */
  lemma PrefixDescending(s: seq<Row>, k: nat)
    requires Descending(s) && k <= |s|
    ensures Descending(s[..k])
  {
    assert forall i :: 0 <= i < k ==> s[..k][i] == s[i];
  }

  /** In a descending sequence, what comes after position k - 1 is no newer than it. */
  lemma RestIsOlder(s: seq<Row>, k: nat)
    requires Descending(s) && 0 < k <= |s|
    ensures forall r :: r in s[k..] ==> NoOlder(s[k - 1], r)
  {
    forall r | r in s[k..] ensures NoOlder(s[k - 1], r) {
      var m :| 0 <= m < |s[k..]| && s[k..][m] == r;
      assert s[k + m] == r;
    }
  }

  /**
   * The rows list_events reads, before they become dicts. They meet the
   * query's specification: newest first, as many as LIMIT allows, and nothing
   * newer left out.
   */
  function Listing(rows: seq<Row>, limit: int): (sel: seq<Row>)
    ensures IsListing(rows, limit, sel)
  {
    var all := SortDescending(rows);
    var k := Bound(|rows|, limit);
    SplitMultiset(all, k);
    PrefixDescending(all, k);
    if k > 0 then
      LeftOutIsOlder(all, k);
      all[..k]
    else
      all[..k]
  }

  /** Cutting s at k splits its rows between the prefix and the rest. */
  lemma SplitMultiset(s: seq<Row>, k: nat)
    requires k <= |s|
    ensures multiset(s[..k]) <= multiset(s)
    ensures multiset(s) - multiset(s[..k]) == multiset(s[k..])
  {
    assert s == s[..k] + s[k..];
  }

  /** The rows a descending prefix leaves out are no newer than its last row. */
  lemma LeftOutIsOlder(s: seq<Row>, k: nat)
    requires Descending(s) && 0 < k <= |s|
    ensures forall r :: r in multiset(s) - multiset(s[..k]) ==> NoOlder(s[..k][k - 1], r)
  {
    SplitMultiset(s, k);
    RestIsOlder(s, k);
  }

  /** A sub-multiset as large as the whole is the whole. */
  lemma SubMultisetOfSameSize(a: multiset<Row>, b: multiset<Row>)
    requires a <= b && |a| == |b|
    ensures a == b
  {
    assert b == a + (b - a);
  }

  /** A listing whose limit does not bind returns every stored row. */
  lemma UnboundedListingIsAll(rows: seq<Row>, limit: int, sel: seq<Row>)
    requires IsListing(rows, limit, sel)
    requires limit < 0 || limit >= |rows|
    ensures multiset(sel) == multiset(rows)
  {
    SubMultisetOfSameSize(multiset(sel), multiset(rows));
  }

  /**
   * After ingest, any listing whose limit does not bind includes the new row,
   * under the id ingest returned.
   */
  lemma IngestedIsListed(rows: seq<Row>, c: Candidate, id: string, now: string, limit: int, sel: seq<Row>)
    requires IsListing(rows + [NewRow(c, id, now)], limit, sel)
    requires limit < 0 || limit > |rows|
    ensures NewRow(c, id, now) in sel
    ensures exists i :: 0 <= i < |sel| && sel[i].id == id
  {
    UnboundedListingIsAll(rows + [NewRow(c, id, now)], limit, sel);
    assert NewRow(c, id, now) in multiset(rows + [NewRow(c, id, now)]);
  }

  /**
   * With ids unique in the table, the id ingest returns names only the new
   * row: any listing holds at most that one row under it.
   */
  lemma IngestedIdIsUnique(rows: seq<Row>, c: Candidate, id: string, now: string, limit: int, sel: seq<Row>)
    requires WellFormed(rows + [NewRow(c, id, now)])
    requires IsListing(rows + [NewRow(c, id, now)], limit, sel)
    ensures forall i :: 0 <= i < |sel| && sel[i].id == id ==> sel[i] == NewRow(c, id, now)
    ensures forall i, j :: 0 <= i < j < |sel| ==> sel[i].id != id || sel[j].id != id
  {
    var all, r := rows + [NewRow(c, id, now)], NewRow(c, id, now);
    forall k | 0 <= k < |all| - 1 ensures all[k].id != id {
      assert all[|all| - 1] == r;
    }
    forall x | x in all && x.id == id ensures x == r {
      var k :| 0 <= k < |all| && all[k] == x;
    }
    forall i | 0 <= i < |sel| && sel[i].id == id ensures sel[i] == r {
      assert sel[i] in multiset(sel);
    }
    OnceInTable(rows, r);
    forall i, j | 0 <= i < j < |sel| ensures sel[i].id != id || sel[j].id != id {
      if sel[i].id == id && sel[j].id == id {
        TwiceCounts(sel, i, j);
      }
    }
  }

  /** A row appended under an id not in rows occurs once in the table. */
  lemma OnceInTable(rows: seq<Row>, r: Row)
    requires WellFormed(rows + [r])
    ensures multiset(rows + [r])[r] == 1
  {
    assert r !in rows by {
      forall k | 0 <= k < |rows| ensures rows[k].id != r.id {
        assert (rows + [r])[k] == rows[k] && (rows + [r])[|rows|] == r;
      }
    }
  }

  /** A value at two positions of s occurs at least twice in it. */
  lemma TwiceCounts(s: seq<Row>, i: nat, j: nat)
    requires i < j < |s| && s[i] == s[j]
    ensures multiset(s)[s[j]] >= 2
  {
    assert s == s[..j] + [s[j]] + s[j + 1..];
    assert s[..j][i] == s[i];
    assert multiset(s[..j])[s[j]] >= 1;
  }

  // ---------------------------------------------------------------------------
  // dict(zip(keys, r)): a row as the JSON object list_events returns

  /** A value SQLite hands back for the columns of this table. */
  datatype Value = Null | Str(s: string) | Integer(n: int)

  /** `keys` in list_events (server.py line 62). */
  const Columns: seq<string> :=
    ["id", "timestamp", "session_id", "src_ip", "src_port", "dest_service", "username", "command", "metadata"]

  function OfText(v: Option<string>): Value {
    match v
    case Some(s) => Str(s)
    case None => Null
  }

  function OfInteger(v: Option<int>): Value {
    match v
    case Some(n) => Integer(n)
    case None => Null
  }

  /** A TEXT column read back: Some(None) for NULL, None if the value is not text. */
  function AsText(v: Value): Option<Option<string>> {
    match v
    case Str(s) => Some(Some(s))
    case Null => Some(None)
    case Integer(_) => None
  }

  function AsInteger(v: Value): Option<Option<int>> {
    match v
    case Integer(n) => Some(Some(n))
    case Null => Some(None)
    case Str(_) => None
  }

  /** `dict(zip(keys, r))` for one row. */
  function RowDict(r: Row): (d: map<string, Value>)
    ensures d.Keys == set k | k in Columns
  {
    map[
      "id" := Str(r.id),
      "timestamp" := Str(r.timestamp),
      "session_id" := OfText(r.sessionId),
      "src_ip" := OfText(r.srcIp),
      "src_port" := OfInteger(r.srcPort),
      "dest_service" := OfText(r.destService),
      "username" := OfText(r.username),
      "command" := OfText(r.command),
      "metadata" := Str(r.metadata)]
  }

  /** Reads a row back from its dict; None when a column is missing or has the wrong type. */
  function DictRow(d: map<string, Value>): Option<Row> {
    if && "id" in d && "timestamp" in d && "session_id" in d && "src_ip" in d && "src_port" in d
       && "dest_service" in d && "username" in d && "command" in d && "metadata" in d
    then
      var id, ts, meta := AsText(d["id"]), AsText(d["timestamp"]), AsText(d["metadata"]);
      var sid, ip, port := AsText(d["session_id"]), AsText(d["src_ip"]), AsInteger(d["src_port"]);
      var svc, user, cmd := AsText(d["dest_service"]), AsText(d["username"]), AsText(d["command"]);
      if && id.Some? && id.value.Some? && ts.Some? && ts.value.Some? && meta.Some? && meta.value.Some?
         && sid.Some? && ip.Some? && port.Some? && svc.Some? && user.Some? && cmd.Some?
      then Some(Row(id.value.value, ts.value.value, sid.value, ip.value, port.value,
                    svc.value, user.value, cmd.value, meta.value.value))
      else None
    else None
  }

  /** Each dict list_events returns carries its row whole: reading it back gives the row. */
  lemma RowDictRoundTrip(r: Row)
    ensures DictRow(RowDict(r)) == Some(r)
  {
    RequiredColumns(r);
    OptionalColumns(r);
  }

  lemma RequiredColumns(r: Row)
    ensures var d := RowDict(r);
      && AsText(d["id"]) == Some(Some(r.id))
      && AsText(d["timestamp"]) == Some(Some(r.timestamp))
      && AsText(d["metadata"]) == Some(Some(r.metadata))
      && AsInteger(d["src_port"]) == Some(r.srcPort)
  {
  }

  lemma OptionalColumns(r: Row)
    ensures var d := RowDict(r);
      && AsText(d["session_id"]) == Some(r.sessionId)
      && AsText(d["src_ip"]) == Some(r.srcIp)
      && AsText(d["dest_service"]) == Some(r.destService)
      && AsText(d["username"]) == Some(r.username)
      && AsText(d["command"]) == Some(r.command)
  {
  }

  /** The dicts list_events returns for a selection of rows. */
  function Dicts(sel: seq<Row>): (out: seq<map<string, Value>>)
    ensures |out| == |sel|
    ensures forall i :: 0 <= i < |out| ==> DictRow(out[i]) == Some(sel[i])
    ensures forall i :: 0 <= i < |out| ==> out[i].Keys == set k | k in Columns
  {
    if sel == [] then []
    else
      RowDictRoundTrip(sel[0]);
      [RowDict(sel[0])] + Dicts(sel[1..])
  }

  // ---------------------------------------------------------------------------
  // The table

  class EventStore {
    /** The rows of the events table, in insertion order. */
    var rows: seq<Row>

    ghost predicate Valid()
      reads this
    {
      WellFormed(rows)
    }

    /** init_db on a fresh database: an empty table. */
    constructor ()
      ensures Valid() && rows == []
    {
      rows := [];
    }

    /**
     * ingest: appends exactly one row under the fresh id and replies with that
     * id; the rows already stored are unchanged.
     */
    method Ingest(c: Candidate, id: string, now: string) returns (reply: Reply)
      requires Valid()
      requires id !in Ids(rows)
      modifies this
      ensures Valid()
      ensures rows == old(rows) + [NewRow(c, id, now)]
      ensures reply == Reply("ok", id)
    {
      rows := rows + [NewRow(c, id, now)];
      reply := Reply("ok", id);
    }

    /**
     * list_events: the dicts of a listing of the table, each with exactly the
     * nine column keys and a stored row's values. sqlite3 binds `limit` as a
     * 64-bit INTEGER and raises OverflowError for a limit outside that range;
     * the request then fails, which is None here.
     */
    function ListEvents(limit: int := DefaultLimit): (out: Option<seq<map<string, Value>>>)
      reads this
      ensures out.None? <==> !IsInt64(limit)
      ensures out.Some? ==> |out.value| <= |rows| && (limit >= 0 ==> |out.value| <= limit)
      ensures out.Some? ==> forall i :: 0 <= i < |out.value| ==> out.value[i].Keys == set k | k in Columns
      ensures out.Some? ==> exists sel :: (IsListing(rows, limit, sel) && |sel| == |out.value| &&
                             forall i :: 0 <= i < |out.value| ==> DictRow(out.value[i]) == Some(sel[i]))
    {
      if IsInt64(limit) then Some(Dicts(Listing(rows, limit))) else None
    }
  }

  /**
   * POST then GET: after Ingest, a GET whose limit does not bind lists the new
   * row, and the dict that carries it has the id the POST replied with.
   */
  method IngestThenList(store: EventStore, c: Candidate, id: string, now: string, limit: int)
    returns (reply: Reply, out: Option<seq<map<string, Value>>>)
    requires store.Valid() && id !in Ids(store.rows)
    requires IsInt64(limit) && (limit < 0 || limit > |store.rows|)
    modifies store
    ensures out.Some?
    ensures exists i :: 0 <= i < |out.value| && DictRow(out.value[i]) == Some(NewRow(c, id, now))
    ensures exists i :: 0 <= i < |out.value| && "id" in out.value[i] && out.value[i]["id"] == Str(reply.id)
  {
    reply := store.Ingest(c, id, now);
    out := store.ListEvents(limit);
    ghost var sel :| IsListing(store.rows, limit, sel) && |sel| == |out.value| &&
                     forall i :: 0 <= i < |out.value| ==> DictRow(out.value[i]) == Some(sel[i]);
    IngestedIsListed(old(store.rows), c, id, now, limit, sel);
    ListedRowHasDict(out.value, sel, NewRow(c, id, now));
  }

  /** A row of the selection has its dict in the output, with the row's id under "id". */
  lemma ListedRowHasDict(out: seq<map<string, Value>>, sel: seq<Row>, r: Row)
    requires |sel| == |out| && forall i :: 0 <= i < |out| ==> DictRow(out[i]) == Some(sel[i])
    requires r in sel
    ensures exists i :: 0 <= i < |out| && DictRow(out[i]) == Some(r)
    ensures exists i :: 0 <= i < |out| && "id" in out[i] && out[i]["id"] == Str(r.id)
  {
    var i :| 0 <= i < |sel| && sel[i] == r;
    assert DictRow(out[i]) == Some(r);
    assert "id" in out[i] && out[i]["id"] == Str(r.id);
  }

  /** The range of a 64-bit INTEGER, the values sqlite3 can bind. */
  predicate IsInt64(n: int) {
    -0x8000_0000_0000_0000 <= n <= 0x7FFF_FFFF_FFFF_FFFF
  }

  /** The default of list_events' `limit` (server.py line 56). */
  const DefaultLimit := 100
}
