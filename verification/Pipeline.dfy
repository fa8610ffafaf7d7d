/** The way of an order: the server puts it on the queue of the Redis shard that its number selects, and the
    consumers of that shard take it off and execute its statement. */
module Pipeline {
  import opened Substring
  import opened JsonValue
  import opened JsonParse
  import opened JsonFast
  import opened JsonRoundTrip
  import JsonReader

  // ---- the order in a message ----

  // Value::asUInt64, where it does not throw; a real is cut to 32 bits, which is defined for those that fit.
  function AsUInt64(v: Value): Option<nat> {
    match v
    case Null => Some(0)
    case Int(i) => if i >= 0 then Some(i) else None
    case UInt(u) => if u >= 0 then Some(u) else None
    case Real(r) => if 0.0 <= r < 4294967296.0 then Some(r.Floor) else None
    case Bool(b) => Some(if b then 1 else 0)
    case _ => None
  }

  // asInt64 does not throw
  predicate IsInt64(v: Value) {
    match v
    case Int(i) => i < 0x8000_0000_0000_0000
    case UInt(u) => u < 0x8000_0000_0000_0000
    case Real(r) => -9223372036854775808.0 <= r <= 9223372036854775808.0
    case Str(_) => false
    case Arr(_) => false
    case Obj(_) => false
    case _ => true
  }

  // asString does not throw
  predicate IsString(v: Value) { v.Null? || v.Str? || v.Bool? }

  // operator[] by name, on an object or null
  function Field(v: Value, name: string): Value {
    if v.Obj? then Lookup(v.members, Name(name)) else Null
  }

  // The number of the order, if the message parses and has the three fields that the server reads.
  function OrderId(data: string, rd: DoubleReader): Option<nat> {
    var r := ParseDocument(data, Null, Features(true, false), rd);
    if r.ok then IdOf(r.v) else None
  }

  function IdOf(v: Value): Option<nat> {
    if (v.Null? || v.Obj?) && IsInt64(Field(v, "mtime")) && IsString(Field(v, "sql"))
    then AsUInt64(Field(v, "id")) else None
  }

  lemma {:induction false} NormalLookup(e: Entries, k: Key)
    ensures Lookup(NormalMembers(e), k) == Normal(Lookup(e, k))
  {
    hide Normal;
    NullNormal();
    if e.Entry? {
      NormalLookup(e.rest, k);
    }
  }

  lemma NullNormal()
    ensures Normal(Null) == Null
  {
  }

  lemma FieldNormal(v: Value)
    ensures IsString(Normal(v)) == IsString(v)
    ensures Plain(v) ==> IsInt64(Normal(v)) == IsInt64(v) && AsUInt64(Normal(v)) == AsUInt64(v)
  {
  }

  // An order that the compact printer wrote is known by the number it had.
  lemma WrittenOrderKnown(members: Entries, st: Style, rd: DoubleReader)
    requires Plain(Obj(members)) && IdOf(Obj(members)).Some?
    ensures Writable(Obj(members)) && OrderId(Fast(Obj(members), st) + "\n", rd) == IdOf(Obj(members))
  {
    hide Fast, ParseDocument, Lookup, NormalMembers, IsInt64, IsString, AsUInt64;
    WrittenReadsBack(Obj(members), st, Null, Features(true, false), rd);
    NormalLookup(members, Name("id"));
    NormalLookup(members, Name("mtime"));
    NormalLookup(members, Name("sql"));
    LookupPlain(members, Name("id"));
    LookupPlain(members, Name("mtime"));
    FieldNormal(Lookup(members, Name("id")));
    FieldNormal(Lookup(members, Name("mtime")));
    FieldNormal(Lookup(members, Name("sql")));
    assert Normal(Obj(members)) == Obj(NormalMembers(members));
  }

  // ---- what the fields of an order say ----

  // A string, with null for the empty one and the words of truth values.
  function TextValue(v: Value): Option<string> {
    match v
    case Str(s) => if s.Some? then s else Some("")
    case Null => Some("")
    case Bool(b) => Some(if b then "true" else "false")
    case _ => None
  }

  // An integer of either type between the bounds, with null for 0 and truth values for 0 and 1.
  function IntegerValue(v: Value, low: int, bound: int): Option<int> {
    match v
    case Int(i) => if low <= i < bound then Some(i) else None
    case UInt(u) => if low <= u < bound then Some(u) else None
    case Null => Some(0)
    case Bool(b) => Some(if b then 1 else 0)
    case _ => None
  }

  function NaturalValue(v: Value): Option<nat> {
    match v
    case Int(i) => if i < 0 then None else Some(i)
    case UInt(u) => if u < 0 then None else Some(u)
    case Null => Some(0)
    case Bool(b) => Some(if b then 1 else 0)
    case _ => None
  }

  const INT_BOUND := 0x8000_0000
  const INT64_BOUND := 0x8000_0000_0000_0000

  // The number that a printed order is routed by: that of its member "id", if "mtime" is an integer and "sql" a text.
  function NumberOfOrder(members: Entries): Option<nat> {
    if IntegerValue(Lookup(members, Name("mtime")), -INT64_BOUND, INT64_BOUND).None? then None
    else if TextValue(Lookup(members, Name("sql"))).None? then None
    else NaturalValue(Lookup(members, Name("id")))
  }

  lemma ValuesOf(v: Value)
    requires Plain(v)
    ensures AsUInt64(v) == NaturalValue(v)
    ensures IsInt64(Normal(v)) == IntegerValue(v, -INT64_BOUND, INT64_BOUND).Some? && IsString(v) == TextValue(v).Some?
  {
  }

  // An order that the compact printer wrote, in any order of its members.
  lemma WrittenNumber(members: Entries, st: Style, rd: DoubleReader)
    requires Plain(Obj(members))
    ensures Writable(Obj(members)) && OrderId(Fast(Obj(members), st) + "\n", rd) == NumberOfOrder(members)
  {
    hide Fast, ParseDocument, Lookup, NormalMembers, IsInt64, IsString, AsUInt64, IntegerValue, NaturalValue, TextValue,
         Plain, Normal;
    PlainMembers(members);
    WrittenReadsBack(Obj(members), st, Null, Features(true, false), rd);
    FieldRead(members, "id");
    FieldRead(members, "mtime");
    FieldRead(members, "sql");
    assert Normal(Obj(members)) == Obj(NormalMembers(members)) by { NormalOfMembers(members); }
  }

  lemma PlainMembers(members: Entries)
    requires Plain(Obj(members))
    ensures EntriesPlain(members)
  {
  }

  lemma NormalOfMembers(members: Entries)
    ensures Normal(Obj(members)) == Obj(NormalMembers(members))
  {
  }

  lemma FieldRead(members: Entries, name: string)
    requires EntriesPlain(members)
    ensures var v := Lookup(members, Name(name));
            && Plain(v) && Lookup(NormalMembers(members), Name(name)) == Normal(v)
            && AsUInt64(Normal(v)) == NaturalValue(v)
            && IsInt64(Normal(v)) == IntegerValue(v, -INT64_BOUND, INT64_BOUND).Some?
            && IsString(Normal(v)) == TextValue(v).Some?
  {
    hide Lookup, NormalMembers, IsInt64, IsString, AsUInt64, IntegerValue, NaturalValue, TextValue, Plain,
         Normal;
    LookupPlain(members, Name(name));
    NormalLookup(members, Name(name));
    FieldNormal(Lookup(members, Name(name)));
    ValuesOf(Lookup(members, Name(name)));
  }

  // ---- the statement of an order ----

  // Value::asString
  function AsString(v: Value): (s: Option<string>)
    ensures s.Some? <==> IsString(v)
  {
    match v
    case Null => Some("")
    case Str(s) => Some(if s.Some? then s.value else "")
    case Bool(b) => Some(BoolText(b))
    case _ => None
  }

  // A real cut to an integer, which is defined for those that fit into 32 bits.
  function Cut(r: real): Option<int> {
    if !(-2147483648.0 <= r <= 2147483647.0) then None else Some(if r >= 0.0 then r.Floor else -(-r).Floor)
  }

  // Value::asInt
  function AsInt(v: Value): Option<int> {
    match v
    case Null => Some(0)
    case Int(i) => if -0x8000_0000 <= i < 0x8000_0000 then Some(i) else None
    case UInt(u) => if u < 0x8000_0000 then Some(u) else None
    case Real(r) => Cut(r)
    case Bool(b) => Some(if b then 1 else 0)
    case _ => None
  }

  // Value::asInt64
  function AsInt64(v: Value): Option<int> {
    match v
    case Null => Some(0)
    case Int(i) => Some(i)
    case UInt(u) => if u < 0x8000_0000_0000_0000 then Some(u) else None
    case Real(r) => Cut(r)
    case Bool(b) => Some(if b then 1 else 0)
    case _ => None
  }

  // The configured old name of the table, and the name that sync_get_table_name makes of a time.
  datatype Tables = Tables(oldName: string, nameFor: int -> string)

  // What sync_order sends to MySQL, or how it gives up before.
  datatype Prepared = Statement(sql: string) | Refused | Raised | Nothing

  function Prepare(data: string, tables: Tables, rd: DoubleReader): Prepared {
    var r := ParseDocument(data, Null, Features(true, false), rd);
    if data == "" then Nothing else if r.ok then PrepareValue(r.v, tables) else Refused
  }

  function PrepareValue(v: Value, tables: Tables): Prepared {
    if !v.Null? && !v.Obj? then Raised else
    var sql, kind := AsString(Field(v, "sql")), AsInt(Field(v, "type"));
    if sql.None? || kind.None? then Raised else
    var mtime := AsInt64(Field(v, if kind.value == 0 then "stime" else "mtime"));
    if mtime.None? then Raised else
    var table := tables.nameFor(mtime.value);
    if table == "" then Refused else Statement(WithTable(sql.value, tables.oldName, table))
  }

  // What sync_order sends for an order with these members: a statement with the table named for "stime" if "type" is 0
  // and for "mtime" otherwise; nothing without a table name; an exception for fields of other types.
  function StatementOf(members: Entries, tables: Tables): Prepared {
    var sql := TextValue(Lookup(members, Name("sql")));
    var kind := IntegerValue(Lookup(members, Name("type")), -INT_BOUND, INT_BOUND);
    if sql.None? || kind.None? then Raised else
    var time := IntegerValue(Lookup(members, Name(if kind == Some(0) then "stime" else "mtime")),
                             -INT64_BOUND, INT64_BOUND);
    if time.None? then Raised
    else if tables.nameFor(time.value) == "" then Refused
    else Statement(WithTable(sql.value, tables.oldName, tables.nameFor(time.value)))
  }

  lemma PreparedValues(v: Value)
    requires Plain(v)
    ensures AsString(Normal(v)) == TextValue(v)
    ensures AsInt(Normal(v)) == IntegerValue(v, -INT_BOUND, INT_BOUND)
    ensures AsInt64(Normal(v)) == IntegerValue(v, -INT64_BOUND, INT64_BOUND)
  {
  }

  lemma PreparedField(members: Entries, name: string)
    requires EntriesPlain(members)
    ensures var v, w := Lookup(members, Name(name)), Lookup(NormalMembers(members), Name(name));
            && AsString(w) == TextValue(v) && AsInt(w) == IntegerValue(v, -INT_BOUND, INT_BOUND)
            && AsInt64(w) == IntegerValue(v, -INT64_BOUND, INT64_BOUND)
  {
    hide Lookup, NormalMembers, AsString, AsInt, AsInt64, IntegerValue, TextValue, Plain, Normal;
    LookupPlain(members, Name(name));
    NormalLookup(members, Name(name));
    PreparedValues(Lookup(members, Name(name)));
  }

  lemma WrittenStatement(members: Entries, st: Style, tables: Tables, rd: DoubleReader)
    requires Plain(Obj(members))
    ensures Writable(Obj(members)) && Prepare(Fast(Obj(members), st) + "\n", tables, rd) == StatementOf(members, tables)
  {
    hide Fast, ParseDocument, Lookup, NormalMembers, AsString, AsInt, AsInt64, IntegerValue, TextValue, Plain, Normal,
         WithTable;
    PlainMembers(members);
    WrittenReadsBack(Obj(members), st, Null, Features(true, false), rd);
    PreparedField(members, "sql");
    PreparedField(members, "type");
    PreparedField(members, "stime");
    PreparedField(members, "mtime");
    NormalOfMembers(members);
  }

  // string::find
  function Find(s: string, i: nat, pat: string): (p: Option<nat>)
    requires i <= |s|
    ensures p.Some? ==> i <= p.value && OccursAt(s, p.value, pat)
    ensures forall k :: i <= k < (if p.Some? then p.value else |s| + 1) ==> !OccursAt(s, k, pat)
    decreases |s| - i
  {
    if OccursAt(s, i, pat) then Some(i) else if i == |s| then None else Find(s, i + 1, pat)
  }

  // string::replace of 19 characters, or as many as there are.
  const TABLE_NAME := 19

  function WithTable(sql: string, stem: string, table: string): string {
    match Find(sql, 0, stem)
    case None => sql
    case Some(pos) => sql[..pos] + table + sql[if pos + TABLE_NAME <= |sql| then pos + TABLE_NAME else |sql|..]
  }

  lemma FirstFound(front: string, tail: string, stem: string, table: string)
    requires stem <= tail && forall k :: 0 <= k < |front| ==> !OccursAt(front + tail, k, stem)
    ensures WithTable(front + tail, stem, table)
            == front + table + tail[if TABLE_NAME <= |tail| then TABLE_NAME else |tail|..]
  {
    var sql := front + tail;
    OccursMiddle(front, stem, tail[|stem|..]);
    assert front + stem + tail[|stem|..] == sql;
    assert OccursAt(sql, |front|, stem) && Find(sql, 0, stem) == Some(|front|);
    assert sql[..|front|] == front;
    var k := if TABLE_NAME <= |tail| then TABLE_NAME else |tail|;
    assert sql[|front| + k..] == tail[k..];
  }

  // The name of the old table gives way to that of the new one exactly when it has 19 characters, or fewer and
  // the statement ends with it.
  lemma TableExchanged(front: string, name: string, rest: string, stem: string, table: string)
    requires stem <= name && forall k :: 0 <= k < |front| ==> !OccursAt(front + (name + rest), k, stem)
    ensures WithTable(front + (name + rest), stem, table) == front + table + rest
            <==> |name| == 19 || (|name| < 19 && rest == "")
  {
    hide WithTable, OccursAt;
    var tail := name + rest;
    assert stem <= tail;
    FirstFound(front, tail, stem, table);
    var k := if TABLE_NAME <= |tail| then TABLE_NAME else |tail|;
    if |name| == TABLE_NAME || (|name| < TABLE_NAME && rest == "") {
      assert tail[k..] == rest;
    } else {
      assert |tail[k..]| != |rest|;
    }
  }

  // A name of 20 characters leaves its last one behind.
  lemma LongNameLeft(table: string)
    ensures WithTable("insert " + "paycenter_order_0001 values", "paycenter_order_", table)
            == "insert " + table + "1 values"
  {
    hide WithTable;
    var stem, tail := "paycenter_order_", "paycenter_order_0001 values";
    forall k | 0 <= k < 7 ensures !OccursAt("insert " + tail, k, stem) {
      if OccursAt("insert " + tail, k, stem) {
        OccursChar("insert " + tail, k, stem, 0);
      }
    }
    assert tail[..|stem|] == stem && tail[TABLE_NAME..] == "1 values";
    FirstFound("insert ", tail, stem, table);
  }

  // ---- the shard of an order ----

  // __REDIS_ID
  function Sid(id: nat, n: nat): nat
    requires n > 0
  {
    if id % n == 0 then n else id % n
  }

  // It is the remainder, with n for 0.
  lemma SidIsRemainder(id: nat, n: nat)
    requires n > 0
    ensures 1 <= Sid(id, n) <= n && exists k: int :: id == k * n + Sid(id, n)
  {
    var k := if id % n == 0 then id / n - 1 else id / n;
    Remainder(id, n);
    assert id == k * n + Sid(id, n);
  }

  lemma Remainder(id: nat, n: nat)
    requires n > 0
    ensures id == id / n * n + id % n && (id / n - 1) * n == id / n * n - n
  {
  }

  // Every order finds its shard exactly when the n shards are numbered from 1 to n.
  lemma EveryOrderFindsShard(shards: set<int>)
    requires shards != {}
    ensures (forall id: nat :: Sid(id, |shards|) in shards) <==> (forall s :: s in shards <==> 1 <= s <= |shards|)
  {
    var n := |shards|;
    if forall id: nat :: Sid(id, n) in shards {
      FirstCount(n);
      forall s | s in First(n) ensures s in shards {
        assert Sid(s, n) == s;
      }
      SubsetOfSize(First(n), shards);
    }
  }

  // 1 to n
  function First(n: nat): set<int> {
    if n == 0 then {} else First(n - 1) + {n}
  }

  lemma {:induction false} FirstCount(n: nat)
    ensures |First(n)| == n && forall s :: s in First(n) <==> 1 <= s <= n
  {
    if n > 0 {
      FirstCount(n - 1);
    }
  }

  lemma Pick<T>(a: set<T>) returns (x: T)
    requires |a| > 0
    ensures x in a
  {
    x :| x in a;
  }

  lemma {:induction false} SubsetOfSize<T>(a: set<T>, b: set<T>)
    requires a <= b && |a| == |b|
    ensures a == b
  {
    if |a| > 0 {
      var x := Pick(a);
      SubsetOfSize(a - {x}, b - {x});
    }
  }

  // ---- the steps ----

  // A message and its place in the order of arrival, which tells equal messages apart.
  datatype Message = Message(no: nat, id: nat, data: string)

  // Per shard the queue and what its consumers have taken off it; what was executed, and what got lost.
  datatype State = State(
    consumers: nat,
    received: seq<Message>,
    queues: map<int, seq<Message>>,
    hands: map<int, seq<Message>>,
    executed: seq<Message>,
    lost: set<nat>)

  datatype Event =
    | Receive(data: string, delivered: bool)
    | Take(shard: int, arrived: bool)
    | Finish(shard: int, hand: nat, succeeded: bool)

  function Start(shards: set<int>, consumers: nat): State {
    State(consumers, [], map s | s in shards :: [], map s | s in shards :: [], [], {})
  }

  // __data_flow. Redis may not take the message; no shard, or no number, ends it too.
  function Received(st: State, data: string, delivered: bool, rd: DoubleReader): State
    requires st.queues != map[]
  {
    match OrderId(data, rd)
    case None => st
    case Some(id) =>
      var m := Message(|st.received|, id, data);
      var sid := Sid(id, |st.queues|);
      if sid in st.queues && delivered then
        st.(received := st.received + [m], queues := st.queues[sid := st.queues[sid] + [m]])
      else st.(received := st.received + [m], lost := st.lost + {m.no})
  }

  // The first half of sync_order: the pop, whose reply may not arrive.
  function Taken(st: State, s: int, arrived: bool): State {
    if s !in st.queues || s !in st.hands || st.queues[s] == [] || st.consumers <= |st.hands[s]| then st
    else if arrived then
      st.(queues := st.queues[s := st.queues[s][1..]], hands := st.hands[s := st.hands[s] + [st.queues[s][0]]])
    else st.(queues := st.queues[s := st.queues[s][1..]], lost := st.lost + {st.queues[s][0].no})
  }

  // The second half: one of the consumers executes the statement, or fails to.
  function Finished(st: State, s: int, k: nat, succeeded: bool): State {
    if s !in st.hands || |st.hands[s]| <= k then st
    else
      var m := st.hands[s][k];
      var hands := st.hands[s := st.hands[s][..k] + st.hands[s][k + 1..]];
      if succeeded then st.(hands := hands, executed := st.executed + [m])
      else st.(hands := hands, lost := st.lost + {m.no})
  }

  function Step(st: State, ev: Event, rd: DoubleReader): (r: State)
    requires st.queues != map[]
    ensures r.queues.Keys == st.queues.Keys && r.consumers == st.consumers && r.queues != map[]
  {
    var r := match ev
      case Receive(data, delivered) => Received(st, data, delivered, rd)
      case Take(s, arrived) => Taken(st, s, arrived)
      case Finish(s, k, succeeded) => Finished(st, s, k, succeeded);
    assert r.queues.Keys == st.queues.Keys;
    assert forall s :: s in st.queues ==> s in r.queues;
    r
  }

  // Any interleaving.
  function Run(st: State, evs: seq<Event>, rd: DoubleReader): (r: State)
    requires st.queues != map[]
    ensures r.queues.Keys == st.queues.Keys && r.consumers == st.consumers && r.queues != map[]
    decreases |evs|
  {
    if evs == [] then st else Run(Step(st, evs[0], rd), evs[1..], rd)
  }

  // ---- what every step keeps ----

  // The messages of a shard, without the lost ones.
  function OfShard(ms: seq<Message>, s: int, n: nat, lost: set<nat>): seq<Message>
    requires n > 0
  {
    if ms == [] then []
    else OfShard(ms[..|ms| - 1], s, n, lost)
         + (if Sid(ms[|ms| - 1].id, n) == s && ms[|ms| - 1].no !in lost then [ms[|ms| - 1]] else [])
  }

  // The messages of an order, without the lost ones.
  function OfOrder(ms: seq<Message>, id: nat, lost: set<nat>): seq<Message> {
    if ms == [] then [] else
    OfOrder(ms[..|ms| - 1], id, lost)
    + (if ms[|ms| - 1].id == id && ms[|ms| - 1].no !in lost then [ms[|ms| - 1]] else [])
  }

  predicate Numbered(ms: seq<Message>) { forall i :: 0 <= i < |ms| ==> ms[i].no == i }

  predicate Increasing(ms: seq<Message>) { forall i, j :: 0 <= i < j < |ms| ==> ms[i].no < ms[j].no }

  // What the consumers of a shard executed, then what they hold, then what is queued, is what arrived for it.
  ghost predicate Line(st: State, s: int)
    requires st.queues != map[] && s in st.queues && s in st.hands
  {
    OfShard(st.executed, s, |st.queues|, {}) + st.hands[s] + st.queues[s]
        == OfShard(st.received, s, |st.queues|, st.lost)
  }

  ghost predicate Inv(st: State) {
    && st.queues != map[] && st.consumers == 1 && st.hands.Keys == st.queues.Keys
    && Numbered(st.received) && (forall x :: x in st.lost ==> x < |st.received|)
    && (forall s :: s in st.queues ==> |st.hands[s]| <= 1 && Line(st, s))
    && (forall m :: m in st.executed ==> Sid(m.id, |st.queues|) in st.queues)
  }

  lemma {:induction false} OfShardAppend(ms: seq<Message>, m: Message, s: int, n: nat, lost: set<nat>)
    requires n > 0
    ensures OfShard(ms + [m], s, n, lost)
              == OfShard(ms, s, n, lost) + (if Sid(m.id, n) == s && m.no !in lost then [m] else [])
  {
    assert (ms + [m])[..|ms + [m]| - 1] == ms;
  }

  lemma {:induction false} OfShardMembers(ms: seq<Message>, s: int, n: nat, lost: set<nat>)
    requires n > 0 && Numbered(ms)
    ensures var f := OfShard(ms, s, n, lost);
            Increasing(f) && forall m :: m in f ==> Sid(m.id, n) == s && m.no < |ms| && m == ms[m.no] && m.no !in lost
    decreases |ms|
  {
    if ms != [] {
      OfShardMembers(ms[..|ms| - 1], s, n, lost);
    }
  }

  // Losing message x takes it out, and nothing else.
  lemma {:induction false} OfShardLess(ms: seq<Message>, s: int, n: nat, lost: set<nat>, x: nat)
    requires n > 0
    ensures OfShard(ms, s, n, lost + {x}) == Without(OfShard(ms, s, n, lost), x)
    decreases |ms|
  {
    if ms != [] {
      var front, m := ms[..|ms| - 1], ms[|ms| - 1];
      OfShardLess(front, s, n, lost, x);
      if Sid(m.id, n) == s && m.no !in lost {
        WithoutAppend(OfShard(front, s, n, lost), [m], x);
      } else {
        assert OfShard(front, s, n, lost) + [] == OfShard(front, s, n, lost);
      }
    }
  }

  function Without(ms: seq<Message>, x: nat): seq<Message> {
    if ms == [] then [] else (if ms[0].no == x then [] else [ms[0]]) + Without(ms[1..], x)
  }

  lemma {:induction false} WithoutAppend(a: seq<Message>, b: seq<Message>, x: nat)
    ensures Without(a + b, x) == Without(a, x) + Without(b, x)
    decreases |a|
  {
    if a == [] {
      assert a + b == b;
    } else {
      assert (a + b)[1..] == a[1..] + b;
      WithoutAppend(a[1..], b, x);
    }
  }

  lemma {:induction false} WithoutAbsent(a: seq<Message>, x: nat)
    requires forall m :: m in a ==> m.no != x
    ensures Without(a, x) == a
  {
    if a != [] {
      WithoutAbsent(a[1..], x);
      assert a == [a[0]] + a[1..];
    }
  }

  lemma WithoutOne(a: seq<Message>, m: Message, b: seq<Message>)
    requires Increasing(a + [m] + b)
    ensures Without(a + [m] + b, m.no) == a + b
  {
    var all := a + [m] + b;
    forall y | y in a ensures y.no != m.no {
      var i :| 0 <= i < |a| && a[i] == y;
      assert all[i] == y && all[|a|] == m;
    }
    forall y | y in b ensures y.no != m.no {
      var i :| 0 <= i < |b| && b[i] == y;
      assert all[|a| + 1 + i] == y && all[|a|] == m;
    }
    WithoutAppend(a + [m], b, m.no);
    WithoutAppend(a, [m], m.no);
    WithoutAbsent(a, m.no);
    WithoutAbsent(b, m.no);
    assert a + [] == a;
  }

  lemma StartInv(shards: set<int>)
    requires shards != {}
    ensures Start(shards, 1).queues.Keys == shards && Start(shards, 1).queues != map[] && Inv(Start(shards, 1))
  {
    var st := Start(shards, 1);
    var s := Pick(shards);
    assert s in st.queues;
    assert st.queues.Keys == shards;
  }

  lemma LineIncreasing(st: State, s: int)
    requires Inv(st) && s in st.queues
    ensures Increasing(st.hands[s] + st.queues[s])
    ensures forall m :: m in st.hands[s] || m in st.queues[s] ==>
              Sid(m.id, |st.queues|) == s && m.no < |st.received| && m.no !in st.lost
    ensures Increasing(OfShard(st.executed, s, |st.queues|, {}) + st.hands[s] + st.queues[s])
  {
    hide OfShard;
    OfShardMembers(st.received, s, |st.queues|, st.lost);
    var done, line := OfShard(st.executed, s, |st.queues|, {}), OfShard(st.received, s, |st.queues|, st.lost);
    assert Line(st, s);
    var rest := st.hands[s] + st.queues[s];
    assert line == done + rest;
    forall i, j | 0 <= i < j < |rest| ensures rest[i].no < rest[j].no {
      assert line[|done| + i] == rest[i] && line[|done| + j] == rest[j];
    }
    forall m | m in st.hands[s] || m in st.queues[s] ensures m in line {
      assert m in rest;
    }
  }

  lemma ReceivedInv(st: State, data: string, delivered: bool, rd: DoubleReader)
    requires Inv(st)
    ensures Inv(Received(st, data, delivered, rd))
  {
    hide OfShard, OrderId, Increasing, Sid;
    var r := Received(st, data, delivered, rd);
    match OrderId(data, rd)
    case None =>
    case Some(id) =>
      var m := Message(|st.received|, id, data);
      var n := |st.queues|;
      SameSize(st.queues, r.queues);
      forall s | s in r.queues ensures |r.hands[s]| <= 1 && Line(r, s) {
        assert Line(st, s);
        OfShardAppend(st.received, m, s, n, r.lost);
        if r.lost != st.lost {
          NotYet(st.received, s, n, st.lost, m.no);
        }
        Joined(OfShard(st.executed, s, n, {}), st.hands[s], st.queues[s], m);
      }
  }

  lemma Joined(a: seq<Message>, b: seq<Message>, c: seq<Message>, m: Message)
    ensures a + b + (c + [m]) == a + b + c + [m] && a + b + c + [] == a + b + c
  {
  }

  lemma SameSize(a: map<int, seq<Message>>, b: map<int, seq<Message>>)
    requires a.Keys == b.Keys
    ensures |a| == |b|
  {
    assert |a| == |a.Keys| && |b| == |b.Keys|;
  }

  lemma NotYet(ms: seq<Message>, s: int, n: nat, lost: set<nat>, x: nat)
    requires n > 0 && Numbered(ms) && |ms| <= x
    ensures OfShard(ms, s, n, lost + {x}) == OfShard(ms, s, n, lost)
  {
    OfShardMembers(ms, s, n, lost);
    OfShardLess(ms, s, n, lost, x);
    WithoutAbsent(OfShard(ms, s, n, lost), x);
  }

  // A message that one shard loses is none of another's.
  lemma LostElsewhere(st: State, s: int, t: int, m: Message)
    requires Inv(st) && s in st.queues && t in st.queues && s != t && (m in st.hands[s] || m in st.queues[s])
    ensures OfShard(st.received, t, |st.queues|, st.lost + {m.no}) == OfShard(st.received, t, |st.queues|, st.lost)
  {
    hide Sid, Increasing;
    var n := |st.queues|;
    var line := OfShard(st.received, s, n, st.lost);
    OfShardMembers(st.received, s, n, st.lost);
    assert Line(st, s) && m in line;
    OfShardMembers(st.received, t, n, st.lost);
    OfShardLess(st.received, t, n, st.lost, m.no);
    WithoutAbsent(OfShard(st.received, t, n, st.lost), m.no);
  }

  lemma TakenInv(st: State, s: int, arrived: bool)
    requires Inv(st)
    ensures Inv(Taken(st, s, arrived))
  {
    hide OfShard, Increasing, Sid;
    var r := Taken(st, s, arrived);
    if r != st {
      var n, m, q := |st.queues|, st.queues[s][0], st.queues[s][1..];
      SameSize(st.queues, r.queues);
      LineIncreasing(st, s);
      var done := OfShard(st.executed, s, n, {});
      assert st.queues[s] == [m] + q && st.hands[s] == [];
      assert done + st.hands[s] + st.queues[s] == done + [m] + q;
      forall t | t in r.queues ensures |r.hands[t]| <= 1 && Line(r, t) {
        assert Line(st, t);
        if t != s && !arrived {
          LostElsewhere(st, s, t, m);
        } else if t == s && !arrived {
          OfShardLess(st.received, s, n, st.lost, m.no);
          WithoutOne(done, m, q);
          assert done + [] + q == done + q;
        } else if t == s {
          assert done + ([] + [m]) + q == done + [m] + q;
        }
      }
    }
  }

  lemma FinishedInv(st: State, s: int, k: nat, succeeded: bool)
    requires Inv(st)
    ensures Inv(Finished(st, s, k, succeeded))
  {
    hide OfShard, Increasing, Sid;
    var r := Finished(st, s, k, succeeded);
    if r != st {
      var n, m, q := |st.queues|, st.hands[s][k], st.queues[s];
      LineIncreasing(st, s);
      var done := OfShard(st.executed, s, n, {});
      assert st.hands[s] == [m] && r.hands[s] == [];
      forall t | t in r.queues ensures |r.hands[t]| <= 1 && Line(r, t) {
        assert Line(st, t);
        OfShardAppend(st.executed, m, t, n, {});
        if t != s && !succeeded {
          LostElsewhere(st, s, t, m);
        } else if t == s && !succeeded {
          OfShardLess(st.received, s, n, st.lost, m.no);
          WithoutOne(done, m, q);
          assert done + [] + q == done + q;
        } else if t == s {
          assert done + [m] + [] + q == done + [m] + q;
        } else {
          assert OfShard(st.executed, t, n, {}) + [] == OfShard(st.executed, t, n, {});
        }
      }
    }
  }

  lemma {:induction false} RunInv(st: State, evs: seq<Event>, rd: DoubleReader)
    requires Inv(st)
    ensures Inv(Run(st, evs, rd))
    decreases |evs|
  {
    hide Inv, Received, Taken, Finished;
    if evs != [] {
      StepInv(st, evs[0], rd);
      RunInv(Step(st, evs[0], rd), evs[1..], rd);
    }
  }

  lemma StepInv(st: State, ev: Event, rd: DoubleReader)
    requires Inv(st)
    ensures Inv(Step(st, ev, rd))
  {
    hide Received, Taken, Finished;
    match ev
    case Receive(data, delivered) => ReceivedInv(st, data, delivered, rd);
    case Take(s, arrived) => TakenInv(st, s, arrived);
    case Finish(s, k, succeeded) => FinishedInv(st, s, k, succeeded);
  }

  // ---- every run ----

  lemma {:induction false} OfOrderOfShard(ms: seq<Message>, id: nat, n: nat, lost: set<nat>)
    requires n > 0
    ensures OfOrder(ms, id, lost) == OfOrder(OfShard(ms, Sid(id, n), n, lost), id, {})
    decreases |ms|
  {
    hide Sid;
    if ms != [] {
      var front, m := ms[..|ms| - 1], ms[|ms| - 1];
      OfOrderOfShard(front, id, n, lost);
      var f := OfShard(front, Sid(id, n), n, lost);
      if Sid(m.id, n) == Sid(id, n) && m.no !in lost {
        assert (f + [m])[..|f + [m]| - 1] == f;
      } else {
        assert f + [] == f;
      }
    }
  }

  lemma {:induction false} OfOrderAppend(a: seq<Message>, b: seq<Message>, id: nat)
    ensures OfOrder(a + b, id, {}) == OfOrder(a, id, {}) + OfOrder(b, id, {})
    decreases |b|
  {
    if b == [] {
      assert a + b == a;
    } else {
      assert (a + b)[..|a + b| - 1] == a + b[..|b| - 1];
      OfOrderAppend(a, b[..|b| - 1], id);
    }
  }

  // In every interleaving, with one consumer a shard: what was executed for an order, what its consumer holds and
  // what is queued is, in this order, what arrived for it and was not lost.
  lemma OrderPreserved(shards: set<int>, evs: seq<Event>, id: nat, rd: DoubleReader)
    requires shards != {} && Sid(id, |shards|) in shards
    ensures Start(shards, 1).queues != map[]
    ensures var st, s := Run(Start(shards, 1), evs, rd), Sid(id, |shards|);
            && s in st.hands && s in st.queues && |st.hands[s]| <= 1 && Numbered(st.received)
            && OfOrder(st.executed, id, {}) + OfOrder(st.hands[s], id, {}) + OfOrder(st.queues[s], id, {})
               == OfOrder(st.received, id, st.lost)
  {
    hide OfOrder, OfShard, Sid, Start, Increasing, Run;
    StartInv(shards);
    RunInv(Start(shards, 1), evs, rd);
    var st, s, n := Run(Start(shards, 1), evs, rd), Sid(id, |shards|), |shards|;
    assert |st.queues| == |st.queues.Keys| == n;
    assert Line(st, s);
    OfOrderOfShard(st.executed, id, n, {});
    OfOrderOfShard(st.received, id, n, st.lost);
    OfOrderAppend(OfShard(st.executed, s, n, {}) + st.hands[s], st.queues[s], id);
    OfOrderAppend(OfShard(st.executed, s, n, {}), st.hands[s], id);
  }

  // Executed statements of one order stand in the order of arrival, none of them twice.
  ghost predicate InOrder(st: State) {
    && (forall m :: m in st.executed ==> m.no < |st.received| && st.received[m.no] == m)
    && (forall i, j :: 0 <= i < j < |st.executed| && st.executed[i].id == st.executed[j].id ==>
        st.executed[i].no < st.executed[j].no)
    && (forall i, j :: 0 <= i < j < |st.executed| ==> st.executed[i].no != st.executed[j].no)
  }

  lemma {:induction false} OfOrderHas(ms: seq<Message>, i: nat, j: nat) returns (k: nat, l: nat)
    requires i < j < |ms| && ms[i].id == ms[j].id
    ensures var f := OfOrder(ms, ms[i].id, {}); k < l < |f| && f[k] == ms[i] && f[l] == ms[j]
    decreases |ms|
  {
    var front := ms[..|ms| - 1];
    assert front[i] == ms[i];
    if j < |front| {
      assert front[j] == ms[j];
      k, l := OfOrderHas(front, i, j);
    } else {
      k := OfOrderHasOne(front, i);
      l := |OfOrder(front, ms[i].id, {})|;
    }
  }

  lemma {:induction false} OfOrderHasOne(ms: seq<Message>, i: nat) returns (k: nat)
    requires i < |ms|
    ensures var f := OfOrder(ms, ms[i].id, {}); k < |f| && f[k] == ms[i]
    decreases |ms|
  {
    if i == |ms| - 1 {
      k := |OfOrder(ms[..|ms| - 1], ms[i].id, {})|;
    } else {
      k := OfOrderHasOne(ms[..|ms| - 1], i);
    }
  }

  lemma {:induction false} OfOrderMembers(ms: seq<Message>, id: nat, lost: set<nat>)
    requires Numbered(ms)
    ensures var f := OfOrder(ms, id, lost); Increasing(f) && forall m :: m in f ==>
              m.id == id && m.no < |ms| && m == ms[m.no]
    decreases |ms|
  {
    if ms != [] {
      OfOrderMembers(ms[..|ms| - 1], id, lost);
    }
  }

  lemma {:induction false} ShardsKept(st: State, evs: seq<Event>, rd: DoubleReader)
    requires Inv(st)
    ensures forall m :: m in Run(st, evs, rd).executed ==> Sid(m.id, |st.queues|) in st.queues
  {
    hide Sid, Run;
    RunInv(st, evs, rd);
    var r := Run(st, evs, rd);
    SameSize(st.queues, r.queues);
  }

  // One consumer a shard keeps the order in every run.
  lemma RunsInOrder(shards: set<int>, evs: seq<Event>, rd: DoubleReader)
    requires shards != {}
    ensures Start(shards, 1).queues != map[] && InOrder(Run(Start(shards, 1), evs, rd))
  {
    hide OfOrder, Sid, Start, Run, Inv;
    StartInv(shards);
    var st := Run(Start(shards, 1), evs, rd);
    var ex := st.executed;
    forall i | 0 <= i < |ex| ensures Sid(ex[i].id, |shards|) in shards && ex[i].no < |st.received|
      && st.received[ex[i].no] == ex[i] {
      ShardsKept(Start(shards, 1), evs, rd);
      assert ex[i] in ex;
      SameKeys(Start(shards, 1).queues, shards);
      var k := OfOrderHasOne(ex, i);
      ExecutedFirst(shards, evs, ex[i].id, rd);
    }
    forall i, j | 0 <= i < j < |ex| && ex[i].id == ex[j].id ensures ex[i].no < ex[j].no {
      var k, l := OfOrderHas(ex, i, j);
      ExecutedFirst(shards, evs, ex[i].id, rd);
    }
  }

  lemma SameKeys(a: map<int, seq<Message>>, keys: set<int>)
    requires a.Keys == keys
    ensures |a| == |keys| && forall k :: k in a <==> k in keys
  {
  }

  // What was executed for an order comes, in order, from what was received.
  lemma ExecutedFirst(shards: set<int>, evs: seq<Event>, id: nat, rd: DoubleReader)
    requires shards != {} && Sid(id, |shards|) in shards && Start(shards, 1).queues != map[]
    ensures var st := Run(Start(shards, 1), evs, rd);
            var f := OfOrder(st.executed, id, {});
            Increasing(f) && forall k :: 0 <= k < |f| ==> f[k].no < |st.received| && f[k] == st.received[f[k].no]
  {
    hide OfOrder, Sid, Start, Run;
    OrderPreserved(shards, evs, id, rd);
    var st, s := Run(Start(shards, 1), evs, rd), Sid(id, |shards|);
    OfOrderMembers(st.received, id, st.lost);
    var f, all := OfOrder(st.executed, id, {}), OfOrder(st.received, id, st.lost);
    forall k | 0 <= k < |f| ensures f[k] == all[k] && f[k] in all {
    }
  }

  // ---- nothing lost ----

  predicate Smooth(ev: Event) {
    match ev
    case Receive(_, delivered) => delivered
    case Take(_, arrived) => arrived
    case Finish(_, _, succeeded) => succeeded
  }

  lemma {:induction false} NothingLost(st: State, evs: seq<Event>, rd: DoubleReader)
    requires st.queues != map[] && st.lost == {} && forall id: nat :: Sid(id, |st.queues|) in st.queues
    requires forall i :: 0 <= i < |evs| ==> Smooth(evs[i])
    ensures Run(st, evs, rd).lost == {}
    decreases |evs|
  {
    hide OrderId, Sid;
    if evs != [] {
      assert Smooth(evs[0]);
      var next := Step(st, evs[0], rd);
      SameSize(st.queues, next.queues);
      NothingLost(next, evs[1..], rd);
    }
  }

  // Without a failure, and with the shards numbered from 1: once the shard of an order is drained, what was executed
  // for the order is what was received for it.
  lemma DrainedIsComplete(n: nat, evs: seq<Event>, id: nat, rd: DoubleReader)
    requires n > 0 && forall i :: 0 <= i < |evs| ==> Smooth(evs[i])
    ensures Start(First(n), 1).queues != map[]
    ensures var st, s := Run(Start(First(n), 1), evs, rd), Sid(id, n);
            s in st.hands && s in st.queues
            && (st.hands[s] == [] && st.queues[s] == [] ==>
                OfOrder(st.executed, id, {}) == OfOrder(st.received, id, {}))
  {
    hide OrderId, Sid, Run, OfOrder;
    FirstCount(n);
    var shards := First(n);
    assert n in shards;
    StartInv(shards);
    EveryOrderFindsShard(shards);
    SameKeys(Start(shards, 1).queues, shards);
    NothingLost(Start(shards, 1), evs, rd);
    assert Sid(id, |shards|) in shards;
    OrderPreserved(shards, evs, id, rd);
    NoOrders(id);
    var st, s := Run(Start(shards, 1), evs, rd), Sid(id, n);
    assert OfOrder(st.executed, id, {}) + [] + [] == OfOrder(st.executed, id, {});
  }

  lemma NoOrders(id: nat)
    ensures OfOrder([], id, {}) == []
  {
  }

  // ---- one consumer a shard is needed ----

  function SampleOrder(): Entries {
    Entry(Name("id"), Int(1), End)
  }

  // A second consumer may overtake the first.
  lemma SecondOvertakes(n: nat, consumers: nat, rd: DoubleReader) returns (evs: seq<Event>)
    requires n > 0 && consumers >= 2
    ensures Start(First(n), consumers).queues != map[] && !InOrder(Run(Start(First(n), consumers), evs, rd))
  {
    hide OrderId, Fast, InOrder, Run;
    var style := Style(false, r => "");
    SampleKnown(style, rd);
    var data := Fast(Obj(SampleOrder()), style) + "\n";
    evs := [Receive(data, true), Receive(data, true), Take(1, true), Take(1, true), Finish(1, 1, true),
            Finish(1, 0, true)];
    FirstCount(n);
    var st := Start(First(n), consumers);
    assert 1 in st.queues;
    SixSteps(st, evs, rd);
    Overtaking(st, n, data, rd);
  }

  lemma Overtaking(st: State, n: nat, data: string, rd: DoubleReader)
    requires n > 0 && st.queues.Keys == First(n) && 1 in st.queues && st.hands == st.queues && st.queues[1] == []
    requires st.received == [] && st.executed == [] && st.consumers >= 2 && OrderId(data, rd) == Some(1)
    ensures var evs := [Receive(data, true), Receive(data, true), Take(1, true), Take(1, true), Finish(1, 1, true),
                        Finish(1, 0, true)];
            !InOrder(Step(Step(Step(Step(Step(Step(st, evs[0], rd), evs[1], rd), evs[2], rd), evs[3], rd), evs[4],
                               rd), evs[5], rd))
  {
    hide OrderId, First, Step;
    FirstCount(n);
    SameKeys(st.queues, First(n));
    var a, b := Message(0, 1, data), Message(1, 1, data);
    var st1 := Step(st, Receive(data, true), rd);
    OrderPut(st, n, data, rd);
    assert [] + [a] == [a];
    var st2 := Step(st1, Receive(data, true), rd);
    OrderPut(st1, n, data, rd);
    assert [a] + [b] == [a, b];
    var st3 := Step(st2, Take(1, true), rd);
    OneTaken(st2, a, [b], rd);
    var st4 := Step(st3, Take(1, true), rd);
    OneTaken(st3, b, [], rd);
    assert [a] + [b] == [a, b];
    SecondFirst(st4, a, b, rd);
  }

  lemma SecondFirst(st: State, a: Message, b: Message, rd: DoubleReader)
    requires st.queues != map[] && 1 in st.hands && st.hands[1] == [a, b] && st.executed == []
    requires a.id == b.id && a.no < b.no
    ensures !InOrder(Step(Step(st, Finish(1, 1, true), rd), Finish(1, 0, true), rd))
  {
    hide Step;
    assert [a] + [b] + [] == [a, b];
    OneFinished(st, [a], b, [], rd);
    var st5 := Step(st, Finish(1, 1, true), rd);
    assert [] + [a] + [] == [a] + [];
    OneFinished(st5, [], a, [], rd);
    var executed := Step(st5, Finish(1, 0, true), rd).executed;
    assert executed[0] == b && executed[1] == a;
  }

  lemma OrderPut(st: State, n: nat, data: string, rd: DoubleReader)
    requires n > 0 && st.queues != map[] && |st.queues| == n && 1 in st.queues && OrderId(data, rd) == Some(1)
    ensures var r, m := Step(st, Receive(data, true), rd), Message(|st.received|, 1, data);
            r.received == st.received + [m] && r.hands == st.hands && r.executed == st.executed
            && 1 in r.queues && r.queues[1] == st.queues[1] + [m] && |r.queues| == n && r.consumers == st.consumers
  {
    hide OrderId;
    assert Sid(1, n) == 1;
    SameSize(st.queues, Step(st, Receive(data, true), rd).queues);
  }

  lemma OneTaken(st: State, m: Message, rest: seq<Message>, rd: DoubleReader)
    requires st.queues != map[] && 1 in st.queues && 1 in st.hands && st.queues[1] == [m] + rest
             && |st.hands[1]| < st.consumers
    ensures var r := Step(st, Take(1, true), rd);
            r.received == st.received && r.executed == st.executed && r.consumers == st.consumers
            && 1 in r.queues && r.queues[1] == rest && 1 in r.hands && r.hands[1] == st.hands[1] + [m]
  {
    assert st.queues[1][1..] == rest;
  }

  lemma OneFinished(st: State, before: seq<Message>, m: Message, after: seq<Message>, rd: DoubleReader)
    requires st.queues != map[] && 1 in st.hands && st.hands[1] == before + [m] + after
    ensures var r := Step(st, Finish(1, |before|, true), rd);
            r.received == st.received && r.executed == st.executed + [m] && 1 in r.hands && r.hands[1] == before + after
  {
    assert st.hands[1][..|before|] == before && st.hands[1][|before| + 1..] == after;
  }

  lemma SampleKnown(st: Style, rd: DoubleReader)
    ensures Writable(Obj(SampleOrder())) && OrderId(Fast(Obj(SampleOrder()), st) + "\n", rd) == Some(1)
            && Sid(1, 1) == 1
  {
    hide ParseDocument, Fast;
    WrittenOrderKnown(SampleOrder(), st, rd);
  }

  lemma SixSteps(st: State, evs: seq<Event>, rd: DoubleReader)
    requires st.queues != map[] && |evs| == 6
    ensures Run(st, evs, rd) == Step(Step(Step(Step(Step(Step(st, evs[0], rd), evs[1], rd), evs[2], rd), evs[3], rd),
                                          evs[4], rd), evs[5], rd)
  {
    hide Step;
    assert evs == [evs[0], evs[1], evs[2], evs[3], evs[4], evs[5]];
    RunMore(st, evs, rd);
    var s1 := Step(st, evs[0], rd);
    RunMore(s1, evs[1..], rd);
    var s2 := Step(s1, evs[1], rd);
    RunMore(s2, evs[1..][1..], rd);
    var s3 := Step(s2, evs[2], rd);
    RunMore(s3, evs[1..][1..][1..], rd);
    var s4 := Step(s3, evs[3], rd);
    RunMore(s4, evs[1..][1..][1..][1..], rd);
    var s5 := Step(s4, evs[4], rd);
    RunMore(s5, evs[1..][1..][1..][1..][1..], rd);
    var s6 := Step(s5, evs[5], rd);
    assert evs[1..][1..][1..][1..][1..][1..] == [];
  }

  lemma RunMore(st: State, evs: seq<Event>, rd: DoubleReader)
    requires st.queues != map[] && evs != []
    ensures Run(st, evs, rd) == Run(Step(st, evs[0], rd), evs[1..], rd)
  {
  }

  // All runs execute the statements of every order as they arrived exactly when a shard has a single consumer.
  lemma OneConsumerExactly(n: nat, consumers: nat, rd: DoubleReader)
    requires n > 0 && consumers > 0
    ensures Start(First(n), consumers).queues != map[]
    ensures (forall evs :: InOrder(Run(Start(First(n), consumers), evs, rd))) <==> consumers == 1
  {
    hide InOrder, Run;
    FirstCount(n);
    assert n in First(n);
    assert n in Start(First(n), consumers).queues;
    if consumers == 1 {
      forall evs ensures InOrder(Run(Start(First(n), consumers), evs, rd)) {
        RunsInOrder(First(n), evs, rd);
      }
    } else {
      var evs := SecondOvertakes(n, consumers, rd);
    }
  }

  // ---- server and consumer at work ----

  // An int, or an exception.
  datatype Reply = Replies(ret: int) | Raises

  class OrderFlow {
    const rd: DoubleReader
    const consumers: nat
    var received: seq<Message>
    var queues: map<int, seq<Message>>
    var hands: map<int, seq<Message>>
    var executed: seq<Message>
    var lost: set<nat>

    ghost function View(): State
      reads this
    {
      State(consumers, received, queues, hands, executed, lost)
    }

    constructor (shards: set<int>, c: nat, r: DoubleReader)
      ensures View() == Start(shards, c) && rd == r
    {
      rd, consumers, received, executed, lost := r, c, [], [], {};
      queues, hands := map s | s in shards :: [], map s | s in shards :: [];
    }

    // __data_flow; a failure of Redis does not show in the result.
    // The members stand for any order that the message may be the text of.
    method DataFlow(data: string, delivered: bool, ghost members: Entries, ghost st: Style) returns (reply: Reply)
      requires queues != map[]
      modifies this
      ensures Plain(Obj(members)) && Writable(Obj(members)) && data == Fast(Obj(members), st) + "\n" ==>
                var id := NumberOfOrder(members);
                && (id.None? ==> View() == old(View()) && reply == Raises)
                && (id.Some? ==>
                      var m := Message(|old(received)|, id.value, data); var s := Sid(id.value, |old(queues)|);
                      && received == old(received) + [m]
                      && (s !in old(queues) ==> queues == old(queues) && reply == Replies(-1))
                      && (s in old(queues) ==> reply == Replies(0))
                      && (s in old(queues) && delivered ==> queues == old(queues)[s := old(queues)[s] + [m]]))
      ensures View() == Received(old(View()), data, delivered, rd)
      ensures var parsed := ParseDocument(data, Null, Features(true, false), rd); var id := OrderId(data, rd);
              reply == if parsed.ok && id.None? then Raises
                       else Replies(if id.Some? && Sid(id.value, |old(queues)|) in old(queues) then 0 else -1)
    {
      hide ParseDocument, Plain, Fast, NumberOfOrder;
      if Plain(Obj(members)) && Writable(Obj(members)) && data == Fast(Obj(members), st) + "\n" {
        WrittenNumber(members, st, rd);
        NumberParses(members, st, rd);
      }
      var reader := new JsonReader.Reader(Features(true, false), rd);
      var ok, value := reader.Parse(data, Null);
      if !ok {
        return Replies(-1);
      }
      var oid := IdOf(value);
      if oid.None? {
        return Raises;
      }
      var rsz := |queues|;
      var sid := oid.value % rsz;
      if sid == 0 {
        sid := rsz;
      }
      var m := Message(|received|, oid.value, data);
      received := received + [m];
      if sid !in queues {
        lost := lost + {m.no};
        return Replies(-1);
      }
      if delivered {
        queues := queues[sid := queues[sid] + [m]];
      } else {
        lost := lost + {m.no};
      }
      reply := Replies(0);
    }

    // sync_order, run by a consumer of shard s that holds nothing, without another consumer coming between.
    // After a lost connection it only connects again; a failure of MySQL does not show in the result.
    // The members stand for any order that the message may be the text of.
    method SyncOrder(s: int, active: bool, connects: bool, arrived: bool, executes: bool, tables: Tables,
                     ghost members: Entries, ghost st: Style)
      returns (reply: Reply, sent: Option<string>)
      requires s in queues && s in hands && hands[s] == [] && 0 < consumers
      modifies this
      ensures !active ==> View() == old(View()) && sent == None && reply == Replies(if connects then 0 else -1)
      ensures active && (old(queues[s]) == [] || !arrived) ==>
                View() == Taken(old(View()), s, arrived) && sent == None && reply == Replies(0)
      ensures active && old(queues[s]) != [] && arrived ==>
                var p := Prepare(old(queues[s][0]).data, tables, rd);
                && View() == Finished(Taken(old(View()), s, true), s, 0, p.Statement? && executes)
                && sent == (if p.Statement? then Some(p.sql) else None)
                && reply == (if p.Refused? then Replies(-1) else if p.Raised? then Raises else Replies(0))
                && (p.Statement? && executes ==> executed == old(executed) + [old(queues[s][0])])
      ensures active && old(queues[s]) != [] && arrived && Plain(Obj(members)) && Writable(Obj(members))
              && old(queues[s][0]).data == Fast(Obj(members), st) + "\n" ==>
                var p := StatementOf(members, tables);
                && sent == (if p.Statement? then Some(p.sql) else None)
                && reply == (if p.Refused? then Replies(-1) else if p.Raised? then Raises else Replies(0))
    {
      hide Prepare, ParseDocument, Plain, Fast, StatementOf;
      if queues[s] != [] && Plain(Obj(members)) && Writable(Obj(members))
         && queues[s][0].data == Fast(Obj(members), st) + "\n" {
        WrittenStatement(members, st, tables, rd);
      }
      if !active {
        return Replies(if connects then 0 else -1), None;
      }
      var got := Dequeue(s, arrived);
      if got.None? {
        return Replies(0), None;
      }
      var p := ReadStatement(got.value.data, tables);
      Execute(s, p.Statement? && executes);
      reply := if p.Refused? then Replies(-1) else if p.Raised? then Raises else Replies(0);
      sent := if p.Statement? then Some(p.sql) else None;
    }

    // Dequeue takes the head off the queue; the reply may not arrive.
    method Dequeue(s: int, arrived: bool) returns (got: Option<Message>)
      requires s in queues && s in hands && hands[s] == [] && 0 < consumers
      modifies this
      ensures View() == Taken(old(View()), s, arrived)
      ensures got == if old(queues[s]) != [] && arrived then Some(old(queues[s][0])) else None
      ensures s in hands && hands[s] == if got.Some? then [got.value] else []
    {
      if queues[s] == [] {
        return None;
      }
      var m := queues[s][0];
      queues := queues[s := queues[s][1..]];
      if !arrived {
        lost := lost + {m.no};
        return None;
      }
      hands := hands[s := hands[s] + [m]];
      got := Some(m);
    }

    // The message at hand is executed or lost.
    method Execute(s: int, succeeded: bool)
      requires s in hands && |hands[s]| == 1
      modifies this
      ensures View() == Finished(old(View()), s, 0, succeeded)
    {
      var m := hands[s][0];
      HandEmptied(hands[s], m);
      hands := hands[s := []];
      if succeeded {
        executed := executed + [m];
      } else {
        lost := lost + {m.no};
      }
    }

    method ReadStatement(data: string, tables: Tables) returns (p: Prepared)
      ensures p == Prepare(data, tables, rd)
    {
      hide ParseDocument, PrepareValue;
      if data == "" {
        return Nothing;
      }
      var reader := new JsonReader.Reader(Features(true, false), rd);
      var ok, value := reader.Parse(data, Null);
      if !ok {
        return Refused;
      }
      p := PrepareValue(value, tables);
    }
  }

  lemma NumberParses(members: Entries, st: Style, rd: DoubleReader)
    requires Plain(Obj(members))
    ensures Writable(Obj(members))
    ensures ParseDocument(Fast(Obj(members), st) + "\n", Null, Features(true, false), rd).ok
  {
    hide Fast, ParseDocument, Plain;
    WrittenReadsBack(Obj(members), st, Null, Features(true, false), rd);
  }

  lemma HandEmptied(hand: seq<Message>, m: Message)
    requires hand == [m]
    ensures hand[..0] + hand[1..] == [] && hand[0] == m
  {
  }
}
