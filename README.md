# Honeypot event pipeline: a Dafny model

This project models the parts of the SSH honeypot pipeline that decide what
gets recorded and what the dashboard shows:

- **The forwarder** (`forwarder.py`) classifies each Cowrie log line. It does
  this with three regular expressions. One pattern finds a `CMD:` command, one
  finds a `Command found:` command and one finds a dotted-quad address. The
  forwarder turns a recognised line into an event dict. The module
  `Classifier` models the patterns as a backtracking search and proves it
  against "witness" predicates: the search returns the leftmost match that each
  greedy quantifier prefers. `ClassifierProperties` proves how `parse_line`
  chooses a branch, and works through concrete log lines.
- **The collector** (`server.py`) stores events in an SQLite table and lists
  them newest first. The module `Collector` keeps the table as the `rows`
  field of an `EventStore` object:
  - `Ingest` appends one row;
  - `ListEvents` returns a listing as dicts. It is proved to return the newest
    rows first, at most `limit` of them, and each dict carries its row whole.
    A limit outside the 64-bit range makes the request fail.
- **The command hook** (`ai_command_hook.py`) answers four common commands from
  a fixed table and sends the rest to the backend. The module `CommandHook`
  takes the HTTP exchange as a parameter.
- **The dashboard** (`dashboard/src/App.jsx`) derives counters from the events
  and groups them by day, by command and by address. The module `Dashboard`
  models each group-by as a loop. The loop is proved to produce one group per
  distinct key. The groups come in JavaScript's property order (module
  `JsObject`) and their counts add up to the number of events (module
  `Counting`).

Shared pieces live in the module `Text`: Python's `str.strip`, whitespace,
`lower` and the text order SQLite sorts by. The module `Wrappers` holds
`Option`.

## Model

| member | source | states |
|---|---|---|
| Text.Strip | forwarder.py:33 | The result starts and ends with non-whitespace and is no longer than the input. It is empty exactly when the input is all whitespace. |
| Text.StripPadded | forwarder.py:33 | Strip removes exactly the whitespace padding around a stripped text. |
| Text.StripIdempotent | forwarder.py:33 | Stripping twice gives the same result as stripping once. |
| Text.Lower | forwarder.py:65 | lower() keeps the length and leaves no capital letter. Each capital becomes its small letter, and every other character is kept. |
| Text.TextLeTotal | server.py:59 | Any two timestamps are comparable in the TEXT order that ORDER BY uses. |
| Text.TextLeTransitive | server.py:59 | The TEXT order is transitive. |
| Text.TextLeAntisymmetric | server.py:59 | Two timestamps that are each no greater than the other are equal. |
| Classifier.Rest | forwarder.py:21-22 | The engine's `(.+)$` match at a position is the only span the pattern can match there. |
| Classifier.TailBack | forwarder.py:21-22 | `\s*` gives back one character at a time. The group starts at the rightmost position where `(.+)$` matches, and on failure `(.+)$` matches at no position in the run. |
| Classifier.Tail | forwarder.py:21-22 | `\s*(.+)$` matches exactly when a witness exists. The group it returns starts after the longest whitespace run a witness allows. |
| Classifier.TailBounds | forwarder.py:21-22 | Every witness of `\s*(.+)$` starts its group within the leading whitespace run, and the group runs to the end of the line. |
| Classifier.GroupIsRestOfLine | forwarder.py:37 | On a stripped line, the greedy group is the rest of the line after the whitespace, and `.strip()` leaves it unchanged. |
| Classifier.CmdBack | forwarder.py:21 | `.*` gives characters back from the right. The result is a "CMD:" in range that the tail pattern can follow, together with that tail's greedy group. |
| Classifier.CmdBackReaches | forwarder.py:21 | Any "CMD:" in range that the tail can follow makes the search succeed, at that marker or a later one. |
| Classifier.CmdBackIsLast | forwarder.py:21 | No "CMD:" that works is skipped: the marker chosen is the last one that works, and failure means none works. |
| Classifier.CmdAt | forwarder.py:21 | A match of cmd_re anchored at a position is a witness with the latest marker and the greediest `\s*`. Failure means no witness starts there. |
| Classifier.CmdSearch | forwarder.py:21 | re.search from a position returns the first start position that has a witness. |
| Classifier.CmdMatch | forwarder.py:21 | cmd_re.search returns None exactly when no witness exists. Otherwise it returns the leftmost `] `, then the last reachable `CMD:`, then the group after the longest whitespace run. |
| Classifier.FoundSearch | forwarder.py:22 | re.search with found_re from a position returns the first marker that has a witness. |
| Classifier.FoundMatch | forwarder.py:22 | found_re.search returns None exactly when no witness exists. Otherwise it returns the leftmost marker and the greedy group. |
| Classifier.QuadAt | forwarder.py:23 | ip_re anchored at a position returns a dotted quad with the longest last run. Failure means no quad starts there. |
| Classifier.IpSearch | forwarder.py:23 | Searching from a position returns the first start position where a quad matches. |
| Classifier.IpMatch | forwarder.py:23 | ip_re.search returns None exactly when the line holds no dotted quad. Otherwise it returns the leftmost quad, with its last run taken whole. |
| Classifier.ExtractIp | forwarder.py:25-27 | The result is "unknown" exactly when the line holds no dotted quad. Otherwise it consists of digits and dots. |
| Classifier.QuadText | forwarder.py:23 | The matched address text starts with a digit and holds only digits and dots. |
| Classifier.Observed | forwarder.py:38-75 | The event dict every branch builds: metadata = the line, the given command, timestamp = clock + "Z", dest_service "ssh", session, port and user None. src_ip is extract_ip of the line, "unknown" exactly when it holds no dotted quad. |
| Classifier.LoginPhrase | forwarder.py:65 | "unauthorized login" and "login attempt", each as written, make a line a login line. No line shorter than "login attempt" is one. |
| Classifier.ParseLine | forwarder.py:29-77 | It returns None exactly when neither pattern matches and no login phrase occurs. An event has: metadata = the stripped line; src_ip = extract_ip of that line; timestamp = clock + "Z"; dest_service "ssh"; session, port and user None; a non-empty command. |
| ClassifierProperties.CmdMatchIsLeftmostGreedy | forwarder.py:21 | Any witness that is leftmost and greedy in both `.*` and `\s*` is the match re.search returns. |
| ClassifierProperties.ExtractIpFinds | forwarder.py:25-27 | For a leftmost dotted quad not followed by a digit, extract_ip returns exactly its text. |
| ClassifierProperties.LeadingQuad | forwarder.py:23-27 | A line that starts with an address, followed by a non-digit or by nothing, yields that address. |
| ClassifierProperties.CmdBranch | forwarder.py:35-47 | When cmd_re matches, the command is the stripped group and the event is the fixed dict around it. |
| ClassifierProperties.FoundBranch | forwarder.py:50-62 | found_re is used only when cmd_re fails. The command is then the rest of the line after the first marker's whitespace. |
| ClassifierProperties.TailOnLine | forwarder.py:21-22 | On a stripped single line, `\s*(.+)$` matches from every position before the end. |
| ClassifierProperties.FoundUsesFirstMarker | forwarder.py:22 | On a stripped line without newlines (as the tail loop delivers), no "Command found:" occurs before the marker found_re uses. |
| ClassifierProperties.CmdUsesLastMarker | forwarder.py:21 | On a stripped line without newlines (as the tail loop delivers), a later "CMD:" than the one cmd_re uses can only be the very end of the line. |
| ClassifierProperties.CmdNeedsBracket | forwarder.py:21 | Without a "] " before some "CMD:", cmd_re does not match. |
| ClassifierProperties.LoginBranch | forwarder.py:64-77 | When both patterns fail, the line is a login_attempt event if it has a login phrase, and None otherwise. |
| ClassifierProperties.ParseLineStripInvariant | forwarder.py:33 | A line and its stripped form are classified the same way. |
| ClassifierProperties.CmdExampleMatch | forwarder.py:21 | On "[12:00:01] session CMD: whoami", cmd_re finds "] " at 9, "CMD:" at 19 and the group "whoami". |
| ClassifierProperties.CmdExampleNoIp | forwarder.py:25-27 | That line has no address, so src_ip is "unknown". |
| ClassifierProperties.CmdExampleEvent | forwarder.py:35-47 | That line becomes the event for the command "whoami". |
| ClassifierProperties.FiveRunsGiveFirstFour | forwarder.py:23 | "1.2.3.4.5" yields "1.2.3.4". |
| ClassifierProperties.OctetsAreNotRangeChecked | forwarder.py:23 | "999.1.2.3" is returned as an address; octets are not range-checked. |
| ClassifierProperties.LoginExampleNoCommand | forwarder.py:35-62 | "10.0.0.5 Login attempt failed" matches neither command pattern. |
| ClassifierProperties.LoginExamplePhrase | forwarder.py:65 | The phrase is found after lower(), so its capital letter does not hide it. |
| ClassifierProperties.LoginExampleIp | forwarder.py:25-27 | That line's address is "10.0.0.5". |
| ClassifierProperties.LoginExampleEvent | forwarder.py:65-75 | That line becomes a "login_attempt" event with src_ip "10.0.0.5". |
| ClassifierProperties.LowerSlice | forwarder.py:65 | lower() commutes with slicing. |
| ClassifierProperties.LowerKeepsLowerCase | forwarder.py:65 | lower() leaves lower-case letters and spaces unchanged. |
| ClassifierProperties.LoginPhraseAnyCase | forwarder.py:65 | A line is a login line exactly when it holds "unauthorized login" as written, or thirteen characters that lower() turns into "login attempt", whatever their capitalisation. |
| Collector.Stamp | server.py:44 | The stored timestamp is never empty. It is the given one when that is non-empty, and otherwise the receipt time + "Z" (Python's `or`). |
| Collector.PyStr | server.py:50 | str() of the metadata is the text itself, or "None" for None, so absent metadata and the text "None" are stored alike. |
| Collector.NewRow | server.py:30-50 | The inserted row has the new id, the defaulted timestamp, every other field unchanged, and metadata as str(): None becomes "None". |
| Collector.Bound | server.py:56-59 | LIMIT returns at most `limit` rows, and fewer only when the table runs out. A negative limit bounds nothing. |
| Collector.Insert | server.py:59 | Inserting into a descending sequence keeps it descending and adds exactly one row. |
| Collector.SortDescending | server.py:59 | The sorted rows are a permutation of the table, in descending timestamp order. |
| Collector.PrefixDescending | server.py:59 | A prefix of a descending sequence is descending. |
| Collector.RestIsOlder | server.py:59 | In a descending sequence, everything after a position is no newer than it. |
| Collector.Listing | server.py:59 | The query returns stored rows, newest first, as many as LIMIT allows. No row left out is newer than the last row returned. |
| Collector.UnboundedListingIsAll | server.py:59 | A listing whose limit does not bind holds every stored row. |
| Collector.IngestedIsListed | server.py:40-63 | After ingest, a listing whose limit does not bind contains the new row under the returned id. |
| Collector.IngestedIdIsUnique | server.py:40-53 | With ids unique in the table (the PRIMARY KEY), the id ingest returns names only the new row: in any listing, every row under that id is the new row, and at most one row carries it. |
| Collector.RowDict | server.py:62-63 | Each dict has exactly the nine column keys. |
| Collector.RowDictRoundTrip | server.py:62-63 | Reading a row back from its dict gives the row. |
| Collector.Dicts | server.py:63 | There is one dict per row, in order. Each has the nine keys and reads back to its row. |
| Collector.EventStore.constructor | server.py:11-26 | A fresh table is empty and well formed. |
| Collector.EventStore.Ingest | server.py:40-53 | Exactly one row is appended, and the rows already stored are unchanged. The reply is {"status": "ok", "id": id}. Ids stay unique and timestamps non-empty. |
| Collector.EventStore.ListEvents | server.py:55-63 | A limit outside the 64-bit INTEGER range fails (sqlite3 raises OverflowError); only such a limit fails. Otherwise the result holds at most `limit` dicts (default 100) and at most the table size. Each dict has the nine keys and is a row of a valid listing: newest first, with nothing newer left out. |
| Collector.IngestThenList | server.py:40-63 | A POST followed by a GET whose limit does not bind lists the new row whole, in a dict whose "id" is the id the POST replied with. |
| CommandHook.Split | ai_command_hook.py:20 | split() returns no words exactly for blank text. Every word is a non-empty run of non-whitespace, and the first word is the first maximal run after the leading whitespace. |
| CommandHook.SplitPadded | ai_command_hook.py:20 | Whitespace, then a whole word, then a rest starting with whitespace splits into that word followed by the split of the rest: the words are the maximal runs, in order. |
| CommandHook.CommandKey | ai_command_hook.py:20 | The key is empty exactly for a blank command. Otherwise it is the stripped command up to its first whitespace. |
| CommandHook.NetworkReply | ai_command_hook.py:25-33 | "(system unavailable)" when the post raised; "(ai error)" for any status other than 200. For a 200 whose body is a JSON object: its "response" member, or "(no response)" when it has none. For a 200 whose body is not JSON or not an object (`.json()` or `.get` raises): "(system unavailable)". |
| CommandHook.GetAiResponse | ai_command_hook.py:9-33 | A key in FAKE_RESPONSES (the four canned commands) gets its canned text. Any other key gets the backend's reply. |
| CommandHook.KeyIsFirstWord | ai_command_hook.py:20 | The key is the stripped command up to its first whitespace, whatever follows. |
| CommandHook.BlankCommandAsksBackend | ai_command_hook.py:20-26 | A blank command has the key "", which is not in the table, so it is sent to the backend. |
| CommandHook.CannedCommandWithArguments | ai_command_hook.py:20-23 | "ls -la" gets the canned listing without any request. |
| CommandHook.PaddedCommandIsCanned | ai_command_hook.py:20-23 | "  whoami\n" gets "root". |
| CommandHook.KeyIsCaseSensitive | ai_command_hook.py:22 | "LS" is not in the table and goes to the backend. |
| CommandHook.CannedIgnoresBackend | ai_command_hook.py:22-23 | For a canned key, the reply does not depend on the backend. |
| CommandHook.ReplyIsTextUnlessBackendSaysOtherwise | ai_command_hook.py:19-33 | The reply is text unless a 200 reply's "response" member is not a string. That member is then returned as it is. |
| JsObject.NonIndexKeysMembers | dashboard/src/App.jsx:36-63 | A key is among the non-index keys exactly when it is present and is not an array index. |
| JsObject.NonIndexKeysAppend | dashboard/src/App.jsx:36-63 | Non-index keys distribute over concatenation. |
| JsObject.PlaceMembers | dashboard/src/App.jsx:39 | Adding a key adds exactly that key. |
| JsObject.PlaceDistinct | dashboard/src/App.jsx:39 | Adding a new key keeps the keys distinct. |
| JsObject.PlaceOrder | dashboard/src/App.jsx:39 | Adding a key keeps property order: array indices first and ascending. |
| JsObject.PlaceNonIndex | dashboard/src/App.jsx:39 | Adding a key keeps the other keys in insertion order. |
| Counting.CountNew | dashboard/src/App.jsx:39-40 | A key not seen before is placed in order and counted once. |
| Counting.CountSeen | dashboard/src/App.jsx:39-40 | A key seen before only has its count raised. |
| Counting.CountedIsTally | dashboard/src/App.jsx:36-43 | Once every key is read, the groups in property order are the tally. |
| Counting.TallyTotal | dashboard/src/App.jsx:36-63 | Every group counts at least one event, and the counts add up to the number of events. |
| Dashboard.TotalAttacks | dashboard/src/App.jsx:30 | The number of events served. |
| Dashboard.UniqueIps | dashboard/src/App.jsx:31 | Zero exactly when there are no events; null counts as an address of its own. |
| Dashboard.UniqueIpsAtMostTotal | dashboard/src/App.jsx:30-31 | There are never more distinct addresses than events. |
| Dashboard.LatestAttack | dashboard/src/App.jsx:32-33 | "N/A" exactly when there are no events. Otherwise it is the first served event's timestamp. |
| Dashboard.DayKey | dashboard/src/App.jsx:38 | "Unknown" for a null or empty timestamp. Otherwise it is the text before the first "T", which contains no "T". |
| Dashboard.OrUnknown | dashboard/src/App.jsx:48 | The value when it is truthy, and "Unknown" otherwise. |
| Dashboard.GroupCount | dashboard/src/App.jsx:36-63 | There is one group per distinct key, with its number of occurrences. Groups come in property order: array-index keys ascending, then the other keys as first seen. |
| Dashboard.AttacksByDay | dashboard/src/App.jsx:36-43 | The groups are the tally of the day keys. |
| Dashboard.CommandFrequency | dashboard/src/App.jsx:46-53 | The first ten groups of the tally of command keys, in property order, which is not by count. |
| Dashboard.IpCounts | dashboard/src/App.jsx:56-63 | The groups are the tally of address keys, and there are no more of them than uniqueIPs. |
| Dashboard.IpGroupsAtMostUnique | dashboard/src/App.jsx:31-63 | The number of address groups never exceeds uniqueIPs. |
| Dashboard.StepAsWritten | dashboard/src/App.jsx:39-40 | On `{}`, "__proto__" changes nothing. An inherited name gets no count, and every other key gets one. |
| Dashboard.ReduceAsWritten | dashboard/src/App.jsx:36-63 | The code's accumulator never counts "__proto__" or an inherited name. It borrows only inherited names. |
| Dashboard.ProtoKeyIsLost | dashboard/src/App.jsx:46-53 | A command "__proto__" leaves the code's accumulator empty, while the tally has it once. |
| Dashboard.InheritedKeyIsNotCounted | dashboard/src/App.jsx:46-53 | A command "toString" becomes a borrowed function with no count, while the tally counts it once. |
| Dashboard.AsWrittenOffPrototype | dashboard/src/App.jsx:36-63 | Without those names among the keys, the code's accumulator agrees step by step with GroupCount's loop. |
| Dashboard.AsWrittenStep | dashboard/src/App.jsx:39-40 | Without those names, one step of the code is one step of GroupCount's loop. |
| Dashboard.TableRows | dashboard/src/App.jsx:148 | The first fifty events, in the order served. |

## Left out

- The forwarder's I/O is not modelled: the `docker logs -f` tail loop and `post_event` (one POST to the collector, with any failure printed). `parse_line` is modelled as a function of the line.
- `datetime.utcnow().isoformat()` becomes a parameter: `clock` in ParseLine, `now` in Ingest. `uuid.uuid4()` becomes the `id` parameter of Ingest.
- Collector.EventStore.Ingest: requires an `id` not already stored. This stands in for uuid4's uniqueness. The code would answer a collision with an IntegrityError, which is not modelled.
- The SQLite plumbing, `init_db` on an existing file, and FastAPI/pydantic request validation are not modelled. The `Candidate` datatype is the request body after validation.
- Collector.EventStore.Ingest: a `src_port` outside the 64-bit INTEGER range is stored as given. In the code sqlite3 raises OverflowError for it and nothing is stored; that error is modelled only for the `limit` of ListEvents.
- Concurrent requests to the collector are not modelled.
- Text.IsDigit: `\d` is taken as ASCII 0-9. Python's `\d` also matches other Unicode decimal digits.
- Text.Lower: folds the ASCII letters only. Python's `str.lower` folds all of Unicode.
- Dashboard.LatestAttack: returns the raw timestamp. The `new Date(...).toLocaleString()` formatting depends on the browser's locale and time zone.
- Dashboard.Event: keeps only the fields the metrics read. The fetch, the 5-second refresh and all rendering (charts, colours) are not modelled.
- The group objects' field names (`{day, count}`, `{command, count}`, `{name, value}`) are abstracted to Group(key, count).
- Dashboard.ReduceAsWritten: does not model the `count` property that `"__proto__"` makes the code add to Object.prototype (it becomes NaN). The borrowed functions' NaN counts are not modelled either.
- CommandHook.Json: JSON numbers are modelled as integers; floating point is not modelled.
- CommandHook.GetAiResponse: returns a JSON value, not a string. For a 200 reply, the code returns whatever the "response" member holds.
- The hook's wiring into Cowrie (the commented-out `session.write(reply + "\n")` call) is not modelled; the `timeout=3` of the post is folded into the `Raised` outcome.
- model.py, database.py and test_llm.py are not part of this model.

## Findings

| source | as written | input that shows it | evidently intended | confidence | as-written member | corrected member |
|---|---|---|---|---|---|---|
| dashboard/src/App.jsx:46-53 (likewise 36-43 and 56-63) | The accumulator `{}` inherits from Object.prototype. `acc[k] \|\| {...}` reads the inherited property, so "__proto__" never becomes a group and "toString" becomes a group holding a function with no count. | an event whose command is "__proto__" or "toString" | every key becomes one group counting its events | not executed | Dashboard.ReduceAsWritten, Dashboard.ProtoKeyIsLost, Dashboard.InheritedKeyIsNotCounted | Dashboard.GroupCount (with Counting.TallyTotal and Dashboard.AsWrittenOffPrototype) |
