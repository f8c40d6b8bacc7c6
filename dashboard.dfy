/**
 * The derived metrics of the dashboard (dashboard/src/App.jsx): the counters,
 * the latest attack, the three group-by reductions and the 50-row table.
 *
 * `events` is the JSON array GET /api/events served, newest first; of each
 * event only the fields the metrics read are kept. A JSON null is None.
 *
 * Each group-by is `Object.values(events.reduce(..., {}))`: it counts the
 * events per key in an object used as a dictionary, and Object.values lists
 * the groups in the object's property order. That order is not insertion
 * order: keys that are array indices ("0", "17", but not "007" or "-1") come
 * first, in ascending numeric order, and the other keys follow in the order
 * they were first added.
 */
module Dashboard {
  import opened Wrappers
  import opened Text
  import opened JsObject
  import opened Counting

  /** The fields of an event the dashboard reads. */
  datatype Event = Event(timestamp: Option<string>, srcIp: Option<string>, command: Option<string>)

  /** JavaScript truthiness of a string field: null and "" are falsy. */
  predicate Truthy(v: Option<string>) {
    v.Some? && v.value != []
  }

  const Unknown := "Unknown"

  // ---------------------------------------------------------------------------
  // totalAttacks, uniqueIPs, latestAttack (App.jsx lines 30-33)

  function TotalAttacks(events: seq<Event>): (n: nat)
    ensures n == |events|
  {
    |events|
  }

  /** `new Set(events.map((e) => e.src_ip))`: null is a value of its own. */
  function SrcIps(events: seq<Event>): set<Option<string>> {
    set e | e in events :: e.srcIp
  }

  function UniqueIps(events: seq<Event>): (n: nat)
    ensures n == 0 <==> events == []
  {
    assert events != [] ==> events[0].srcIp in SrcIps(events);
    |SrcIps(events)|
  }

  /** There are never more distinct addresses than events. */
  lemma {:induction false} UniqueIpsAtMostTotal(events: seq<Event>)
    ensures UniqueIps(events) <= TotalAttacks(events)
  {
    if events != [] {
      UniqueIpsAtMostTotal(events[1..]);
      assert events == [events[0]] + events[1..];
      assert SrcIps(events) == SrcIps(events[1..]) + {events[0].srcIp};
    }
  }

  /** latestAttack before formatting: "N/A", or the timestamp of the first event served. */
  datatype Latest = NotAvailable | At(timestamp: Option<string>)

  function LatestAttack(events: seq<Event>): (latest: Latest)
    ensures latest.NotAvailable? <==> events == []
    ensures latest.At? ==> latest.timestamp == events[0].timestamp
  {
    if |events| > 0 then At(events[0].timestamp) else NotAvailable
  }

  // ---------------------------------------------------------------------------
  // The grouping keys (App.jsx lines 38, 48, 58)

  predicate NotT(c: char) { c != 'T' }

  /** `e.timestamp ? e.timestamp.split("T")[0] : "Unknown"`: the text before the first "T". */
  function DayKey(ts: Option<string>): (day: string)
    ensures !Truthy(ts) ==> day == Unknown
    ensures Truthy(ts) ==> day <= ts.value && 'T' !in day
    ensures Truthy(ts) && |day| < |ts.value| ==> ts.value[|day|] == 'T'
  {
    if Truthy(ts) then
      var j := Span(ts.value, 0, NotT);
      assert forall k :: 0 <= k < j ==> ts.value[..j][k] == ts.value[k];
      ts.value[..j]
    else Unknown
  }

  /** `e.command || "Unknown"` and `e.src_ip || "Unknown"`. */
  function OrUnknown(v: Option<string>): (key: string)
    ensures Truthy(v) ==> key == v.value
    ensures !Truthy(v) ==> key == Unknown
  {
    if Truthy(v) then v.value else Unknown
  }

  function DayKeys(events: seq<Event>): (keys: seq<string>)
    ensures |keys| == |events| && forall i :: 0 <= i < |events| ==> keys[i] == DayKey(events[i].timestamp)
  {
    seq(|events|, i requires 0 <= i < |events| => DayKey(events[i].timestamp))
  }

  function CommandKeys(events: seq<Event>): (keys: seq<string>)
    ensures |keys| == |events| && forall i :: 0 <= i < |events| ==> keys[i] == OrUnknown(events[i].command)
  {
    seq(|events|, i requires 0 <= i < |events| => OrUnknown(events[i].command))
  }

  function IpKeys(events: seq<Event>): (keys: seq<string>)
    ensures |keys| == |events| && forall i :: 0 <= i < |events| ==> keys[i] == OrUnknown(events[i].srcIp)
  {
    seq(|events|, i requires 0 <= i < |events| => OrUnknown(events[i].srcIp))
  }

  // ---------------------------------------------------------------------------
  // The group-by reductions (App.jsx lines 36-63)

  /**
   * The reduction: `acc[k] = acc[k] || {k, count: 0}; acc[k].count += 1` for
   * each key, then Object.values(acc). The accumulator is taken to have no
   * inherited properties (ReduceAsWritten below is the code's `{}`).
   */
  method GroupCount(keys: seq<string>) returns (groups: seq<Group>)
    ensures IsTally(keys, groups)
  {
    var order: seq<string> := [];
    var count: map<string, nat> := map[];
    var i := 0;
    CountedStart(keys);
    while i < |keys|
      invariant Counted(keys, i, order, count)
    {
      var k := keys[i];
      if k !in count {
        CountNew(keys, i, order, count);
        order := Place(order, k);
      } else {
        CountSeen(keys, i, order, count);
      }
      var n := if k in count then count[k] else 0;
      count := count[k := n + 1];
      i := i + 1;
    }
    OrderIsCounted(keys, i, order, count);
    groups := seq(|order|, j requires 0 <= j < |order| => Group(order[j], count[order[j]]));
    CountedIsTally(keys, order, count, groups);
  }

  /** attacksByDay (App.jsx lines 36-43). */
  method AttacksByDay(events: seq<Event>) returns (groups: seq<Group>)
    ensures IsTally(DayKeys(events), groups)
  {
    groups := GroupCount(DayKeys(events));
  }

  /** commandFrequency (App.jsx lines 46-53): the first ten groups in property order, not the ten largest. */
  method CommandFrequency(events: seq<Event>) returns (top: seq<Group>)
    ensures |top| <= 10
    ensures exists all :: IsTally(CommandKeys(events), all) && top == all[..if |all| < 10 then |all| else 10]
  {
    var all := GroupCount(CommandKeys(events));
    top := all[..if |all| < 10 then |all| else 10];
  }

  /** ipCounts (App.jsx lines 56-63): never more groups than uniqueIPs. */
  method IpCounts(events: seq<Event>) returns (groups: seq<Group>)
    ensures IsTally(IpKeys(events), groups)
    ensures |groups| <= UniqueIps(events)
  {
    groups := GroupCount(IpKeys(events));
    IpGroupsAtMostUnique(events, groups);
  }

  lemma {:induction false} DistinctCard(s: seq<string>)
    requires Distinct(s)
    ensures |set x | x in s| == |s|
  {
    if s != [] {
      var t := s[1..];
      assert Distinct(t) by {
        forall i, j | 0 <= i < j < |t| ensures t[i] != t[j] { assert t[i] == s[i + 1] && t[j] == s[j + 1]; }
      }
      DistinctCard(t);
      assert s[0] !in t by {
        forall j | 0 <= j < |t| ensures t[j] != s[0] { assert t[j] == s[j + 1]; }
      }
      assert s[0] !in (set x | x in t);
      assert (set x | x in s) == (set x | x in t) + {s[0]};
    }
  }

  /** A subset is no larger. */
  lemma {:induction false} SubsetCard(a: set<string>, b: set<string>)
    requires a <= b
    ensures |a| <= |b|
    decreases |b|
  {
    if a != {} {
      var x :| x in a;
      SubsetCard(a - {x}, b - {x});
    }
  }

  /** Mapping a set never makes it larger. */
  lemma {:induction false} ImageNoLarger(ips: set<Option<string>>)
    ensures |set v | v in ips :: OrUnknown(v)| <= |ips|
    decreases |ips|
  {
    if ips != {} {
      var v :| v in ips;
      var rest := ips - {v};
      ImageNoLarger(rest);
      var image, smaller := set w | w in ips :: OrUnknown(w), set w | w in rest :: OrUnknown(w);
      assert image <= smaller + {OrUnknown(v)};
      SubsetCard(image, smaller + {OrUnknown(v)});
      assert |smaller + {OrUnknown(v)}| <= |smaller| + 1 by {
        if OrUnknown(v) in smaller { assert smaller + {OrUnknown(v)} == smaller; }
      }
    }
  }

  lemma IpGroupsAtMostUnique(events: seq<Event>, groups: seq<Group>)
    requires IsTally(IpKeys(events), groups)
    ensures |groups| <= UniqueIps(events)
  {
    var keys := IpKeys(events);
    var named := set x | x in KeysOf(groups);
    DistinctCard(KeysOf(groups));
    assert |named| == |groups|;
    var image := set v | v in SrcIps(events) :: OrUnknown(v);
    assert named <= image by {
      forall x | x in named ensures x in image {
        var i :| 0 <= i < |groups| && KeysOf(groups)[i] == x;
        assert groups[i] in groups;
        var j :| 0 <= j < |keys| && keys[j] == x;
        assert events[j] in events && events[j].srcIp in SrcIps(events);
      }
    }
    SubsetCard(named, image);
    ImageNoLarger(SrcIps(events));
  }

  // ---------------------------------------------------------------------------
  // The reduction as written: `{}` inherits from Object.prototype

  /** The properties an object literal inherits from Object.prototype, __proto__ apart. */
  const InheritedNames: set<string> := {
    "constructor", "toString", "toLocaleString", "valueOf", "hasOwnProperty",
    "isPrototypeOf", "propertyIsEnumerable", "__defineGetter__", "__defineSetter__",
    "__lookupGetter__", "__lookupSetter__"}

  const ProtoKey := "__proto__"

  /**
   * The accumulator `{}` as the reduction uses it: its own keys in property
   * order, the count of each group object, and the keys whose value is a
   * function borrowed from Object.prototype.
   */
  datatype Acc = Acc(order: seq<string>, count: map<string, nat>, borrowed: set<string>)

  /**
   * One step of `acc[k] = acc[k] || {k, count: 0}; acc[k].count += 1` on `{}`.
   * For "__proto__", `acc[k]` reads Object.prototype and assigning it back
   * creates no own property, so the key never becomes a group. For an
   * inherited name, `acc[k]` is the inherited function, truthy, so it is
   * copied into an own property and `count += 1` lands on the function.
   */
  function StepAsWritten(a: Acc, k: string): (b: Acc)
    ensures k == ProtoKey ==> b == a
    ensures k in InheritedNames && k !in a.count ==> b.count == a.count
    ensures k != ProtoKey && k !in InheritedNames && k !in a.borrowed ==> k in b.count && b.borrowed == a.borrowed
  {
    if k == ProtoKey then a
    else if k in a.count then a.(count := a.count[k := a.count[k] + 1])
    else if k in a.borrowed then a
    else if k in InheritedNames then a.(order := Place(a.order, k), borrowed := a.borrowed + {k})
    else a.(order := Place(a.order, k), count := a.count[k := 1])
  }

  /** `keys.reduce(step, {})` as written. */
  function ReduceAsWritten(keys: seq<string>): (a: Acc)
    ensures forall k :: k in a.count ==> k in keys && k != ProtoKey && k !in InheritedNames
    ensures a.borrowed <= InheritedNames
  {
    if keys == [] then Acc([], map[], {})
    else
      var p := keys[..|keys| - 1];
      assert forall k :: k in p ==> k in keys;
      StepAsWritten(ReduceAsWritten(p), keys[|keys| - 1])
  }

  /** A command "__proto__" is lost by the code, and counted once by GroupCount. */
  lemma ProtoKeyIsLost(groups: seq<Group>)
    requires IsTally([ProtoKey], groups)
    ensures ReduceAsWritten([ProtoKey]) == Acc([], map[], {})
    ensures groups == [Group(ProtoKey, 1)]
  {
    OnlyKey(ProtoKey, groups);
  }

  /**
   * A command "toString" becomes a group whose value is Object.prototype's
   * toString function, with no count of its own; GroupCount counts it once.
   */
  lemma InheritedKeyIsNotCounted(groups: seq<Group>)
    requires IsTally(["toString"], groups)
    ensures ReduceAsWritten(["toString"]) == Acc(["toString"], map[], {"toString"})
    ensures groups == [Group("toString", 1)]
  {
    assert !IsArrayIndex("toString") by { assert !IsDigit("toString"[0]); }
    assert ReduceAsWritten(["toString"][..0]) == Acc([], map[], {});
    OnlyKey("toString", groups);
  }

  /** The tally of a single key is one group counting it once. */
  lemma OnlyKey(k: string, groups: seq<Group>)
    requires IsTally([k], groups)
    ensures groups == [Group(k, 1)]
  {
    assert k in KeysOf(groups);
    assert groups[0].key == k && groups[0].count == 1 by { assert groups[0] in groups; }
    forall j | 0 <= j < |groups| ensures KeysOf(groups)[j] == k {
      assert groups[j] in groups;
    }
    AtMostOne(KeysOf(groups), k);
  }

  /** Distinct keys that are all k are at most one. */
  lemma AtMostOne(ks: seq<string>, k: string)
    requires Distinct(ks)
    requires forall j :: 0 <= j < |ks| ==> ks[j] == k
    ensures |ks| <= 1
  {
    DistinctCard(ks);
    assert (set x | x in ks) <= {k};
    SubsetCard(set x | x in ks, {k});
  }

  /**
   * Without "__proto__" and the inherited names among the keys, the code's
   * accumulator after i keys is exactly GroupCount's: nothing is borrowed and
   * the order and counts are those of Counted.
   */
  lemma {:induction false} AsWrittenOffPrototype(keys: seq<string>, i: nat)
    requires i <= |keys|
    requires forall k :: k in keys ==> k != ProtoKey && k !in InheritedNames
    ensures var a := ReduceAsWritten(keys[..i]); a.borrowed == {} && Counted(keys, i, a.order, a.count)
  {
    if i == 0 {
      assert keys[..0] == [];
      CountedStart(keys);
    } else {
      AsWrittenOffPrototype(keys, i - 1);
      assert keys[..i][..i - 1] == keys[..i - 1];
      assert keys[i - 1] in keys;
      AsWrittenStep(keys, i - 1, ReduceAsWritten(keys[..i - 1]));
    }
  }

  /** Off the prototype names, one step of the code is one step of GroupCount's loop. */
  lemma AsWrittenStep(keys: seq<string>, i: nat, a: Acc)
    requires a.borrowed == {} && Counted(keys, i, a.order, a.count)
    requires i < |keys| && keys[i] != ProtoKey && keys[i] !in InheritedNames
    ensures var b := StepAsWritten(a, keys[i]); b.borrowed == {} && Counted(keys, i + 1, b.order, b.count)
  {
    if keys[i] in a.count {
      CountSeen(keys, i, a.order, a.count);
    } else {
      CountNew(keys, i, a.order, a.count);
    }
  }

  // ---------------------------------------------------------------------------
  // The table (App.jsx line 148)

  /** `events.slice(0, 50)`: the first fifty events in the order served. */
  function TableRows(events: seq<Event>): (rows: seq<Event>)
    ensures |rows| == if |events| < 50 then |events| else 50
    ensures rows == events[..|rows|]
  {
    if |events| < 50 then events else events[..50]
  }
}
