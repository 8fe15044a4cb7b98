/** The key/value server of `kv_store.c`: a byte stream of requests is parsed, and a
    table of 100 slots, scanned and changed in place, has to agree with a finite map. */
module KvStore {
  import opened Wrappers
  import opened Counting

  const MAX_ENTRIES := 100
  const VALUE_SIZE := 256
  const HEADER := 9                 // sizeof(struct request_hdr)

  const OP_READ := 1
  const OP_WRITE := 2
  const OP_DELETE := 3
  const OP_FIRE := 4

  type Byte = x: int | 0 <= x < 256

  datatype Request = Write(key: nat, payload: seq<Byte>) | Read(key: nat) | Delete(key: nat) | Fire | Unknown(op: Byte)
  datatype Status = OK | NOT_FOUND | ERROR

  /** A header, followed by the value of a READ; FIRE also sends a text; unknown operations get nothing. */
  datatype Response = Response(status: Status, value: seq<Byte>) | Fired | Silence

  datatype Entry = Entry(key: nat, value: seq<Byte>, inUse: bool)

  // ---- Specification: a map with at most MAX_ENTRIES keys ----

  function UpToNul(s: seq<Byte>): (r: seq<Byte>)
    ensures |r| <= |s|
  {
    if s == [] || s[0] == 0 then [] else [s[0]] + UpToNul(s[1..])
  }

  /** The C string that is stored: cut at 255 bytes and at the first NUL. */
  function Stored(payload: seq<Byte>): (r: seq<Byte>)
    ensures |r| < VALUE_SIZE
  {
    UpToNul(if |payload| >= VALUE_SIZE then payload[..VALUE_SIZE - 1] else payload)
  }

  type Contents = map<nat, seq<Byte>>

  function MapAfter(m: Contents, r: Request): Contents {
    match r
    case Write(k, p) => if k in m || |m| < MAX_ENTRIES then m[k := Stored(p)] else m
    case Delete(k) => m - {k}
    case _ => m
  }

  function MapResponse(m: Contents, r: Request): Response {
    match r
    case Write(k, _) => Response(if k in m || |m| < MAX_ENTRIES then OK else ERROR, [])
    case Read(k) => if k in m then Response(OK, m[k]) else Response(NOT_FOUND, [])
    case Delete(k) => Response(if k in m then OK else NOT_FOUND, [])
    case Fire => Fired
    case Unknown(_) => Silence
  }

  function MapRun(m: Contents, rs: seq<Request>): Contents {
    if rs == [] then m else MapAfter(MapRun(m, rs[..|rs| - 1]), rs[|rs| - 1])
  }

  function MapResponses(m: Contents, rs: seq<Request>): (out: seq<Response>)
    ensures |out| == |rs|
  {
    if rs == [] then []
    else MapResponses(m, rs[..|rs| - 1]) + [MapResponse(MapRun(m, rs[..|rs| - 1]), rs[|rs| - 1])]
  }

  /** A payload without NUL of at most 255 bytes is stored as it is. */
  lemma {:induction false} ShortPayload(payload: seq<Byte>)
    requires |payload| < VALUE_SIZE && 0 !in payload
    ensures Stored(payload) == payload
    decreases |payload|
  {
    if payload != [] {
      ShortPayload(payload[1..]);
    }
  }

  // ---- The table as a map ----

  /** The first slot in use with this key, or -1. */
  function Find(db: seq<Entry>, key: nat): (i: int)
    ensures -1 <= i < |db|
    ensures i >= 0 ==> db[i].inUse && db[i].key == key
    ensures forall k :: 0 <= k < (if i >= 0 then i else |db|) ==> !(db[k].inUse && db[k].key == key)
  {
    if db == [] then -1
    else
      var i := Find(db[..|db| - 1], key);
      if i >= 0 then i
      else if db[|db| - 1].inUse && db[|db| - 1].key == key then |db| - 1
      else -1
  }

  function Keys(db: seq<Entry>): set<nat> {
    set i | 0 <= i < |db| && db[i].inUse :: db[i].key
  }

  function Abs(db: seq<Entry>): Contents {
    map k | k in Keys(db) :: db[KeyIndex(db, k)].value
  }

  function KeyIndex(db: seq<Entry>, k: nat): (i: nat)
    requires k in Keys(db)
    ensures i < |db| && i == Find(db, k)
  {
    Find(db, k)
  }

  /** No key occupies two slots in use. */
  predicate Unique(db: seq<Entry>) {
    forall i, j :: 0 <= i < j < |db| && db[i].inUse && db[j].inUse ==> db[i].key != db[j].key
  }

  lemma FindUnique(db: seq<Entry>, i: nat)
    requires Unique(db) && i < |db| && db[i].inUse
    ensures Find(db, db[i].key) == i && db[i].key in Abs(db) && Abs(db)[db[i].key] == db[i].value
  {
    assert db[i].key in Keys(db);
  }

  lemma FindNone(db: seq<Entry>, key: nat)
    ensures Find(db, key) < 0 <==> key !in Abs(db)
  {
  }

  function InUse(e: Entry): int { One(e.inUse) }

  lemma KeysStep(db: seq<Entry>)
    requires db != []
    ensures Keys(db) == (if db[0].inUse then {db[0].key} else {}) + Keys(db[1..])
  {
    var rest := db[1..];
    forall k | k in Keys(rest) ensures k in Keys(db) {
      var i :| 0 <= i < |rest| && rest[i].inUse && rest[i].key == k;
      assert db[i + 1] == rest[i];
    }
    forall k | k in Keys(db) && !(db[0].inUse && k == db[0].key) ensures k in Keys(rest) {
      var i :| 0 <= i < |db| && db[i].inUse && db[i].key == k;
      assert rest[i - 1] == db[i];
    }
  }

  /** The map has as many keys as there are slots in use. */
  lemma {:induction false} SizeOfKeys(db: seq<Entry>)
    requires Unique(db)
    ensures |Keys(db)| == Total(db, InUse)
  {
    if db == [] {
      assert Keys(db) == {};
    } else {
      SizeOfKeys(db[1..]);
      KeysStep(db);
      assert db[0].inUse ==> db[0].key !in Keys(db[1..]);
    }
  }

  lemma SizeOfMap(db: seq<Entry>)
    requires Unique(db)
    ensures |Abs(db)| == Total(db, InUse)
  {
    SizeOfKeys(db);
    assert Abs(db).Keys == Keys(db);
  }

  /** The table is full exactly when the map is. */
  lemma FullExactly(db: seq<Entry>)
    requires Unique(db)
    ensures (forall i :: 0 <= i < |db| ==> db[i].inUse) <==> |Abs(db)| == |db|
    ensures |Abs(db)| <= |db|
  {
    SizeOfMap(db);
    if forall i :: 0 <= i < |db| ==> db[i].inUse {
      TotalConstant(db, InUse, 1);
    } else {
      var i :| 0 <= i < |db| && !db[i].inUse;
      OneFree(db, i);
    }
  }

  lemma OneFree(db: seq<Entry>, i: nat)
    requires i < |db| && !db[i].inUse
    ensures Total(db, InUse) < |db|
  {
    var all: Entry -> int := _ => 1;
    TotalStrict(db, InUse, all, i);
    TotalConstant(db, all, 1);
  }

  /** Entry i has been replaced, and neither its old nor its new use concerns key k. */
  lemma OtherKey(db: seq<Entry>, i: nat, e: Entry, k: nat)
    requires i < |db| && !(db[i].inUse && db[i].key == k) && !(e.inUse && e.key == k)
    ensures Find(db[i := e], k) == Find(db, k)
    ensures k in Abs(db[i := e]) <==> k in Abs(db)
    ensures k in Abs(db) ==> Abs(db[i := e])[k] == Abs(db)[k]
  {
    FirstFound(db[i := e], k, Find(db, k));
    FindNone(db, k);
    FindNone(db[i := e], k);
  }

  ghost predicate SameElsewhere(m: Contents, m': Contents, key: nat) {
    forall k :: k != key ==> (k in m' <==> k in m) && (k in m && k in m' ==> m'[k] == m[k])
  }

  lemma SameOtherKeys(db: seq<Entry>, i: nat, e: Entry, key: nat)
    requires i < |db| && (e.inUse ==> e.key == key) && (db[i].inUse ==> db[i].key == key)
    ensures SameElsewhere(Abs(db), Abs(db[i := e]), key)
  {
    forall k | k != key
      ensures (k in Abs(db[i := e]) <==> k in Abs(db))
      ensures k in Abs(db) ==> Abs(db[i := e])[k] == Abs(db)[k]
    {
      OtherKey(db, i, e, k);
    }
  }

  lemma MapUpdated(m: Contents, m': Contents, key: nat)
    requires SameElsewhere(m, m', key)
    ensures m' == if key in m' then m[key := m'[key]] else m - {key}
  {
  }

  /** Storing in the key's own slot, or in a free one if it has none. */
  lemma StoreIsUpdate(db: seq<Entry>, i: nat, key: nat, value: seq<Byte>)
    requires Unique(db) && i < |db|
    requires if Find(db, key) >= 0 then i == Find(db, key) else !db[i].inUse
    ensures var db' := db[i := Entry(key, value, true)]; Unique(db') && Abs(db') == Abs(db)[key := value]
  {
    var e := Entry(key, value, true);
    var db' := db[i := e];
    FindUnique(db', i);
    SameOtherKeys(db, i, e, key);
    MapUpdated(Abs(db), Abs(db'), key);
  }

  lemma FreeIsRemove(db: seq<Entry>, i: nat, key: nat)
    requires Unique(db) && Find(db, key) == i
    ensures var db' := db[i := db[i].(inUse := false)]; Unique(db') && Abs(db') == Abs(db) - {key}
  {
    var e := db[i].(inUse := false);
    var db' := db[i := e];
    FirstFound(db', key, -1);
    FindNone(db', key);
    SameOtherKeys(db, i, e, key);
    MapUpdated(Abs(db), Abs(db'), key);
  }

  // ---- The byte stream ----

  /** Four bytes in network order. */
  function Number32(b: seq<Byte>): (n: nat)
    requires |b| == 4
    ensures n < 0x1_0000_0000
  {
    ((b[0] as int * 256 + b[1] as int) * 256 + b[2] as int) * 256 + b[3] as int
  }

  function Bytes32(n: nat): (b: seq<Byte>)
    requires n < 0x1_0000_0000
    ensures |b| == 4
  {
    [n / 0x100_0000, n / 0x1_0000 % 256, n / 256 % 256, n % 256]
  }

  lemma NumberBytes(n: nat)
    requires n < 0x1_0000_0000
    ensures Number32(Bytes32(n)) == n
  {
    var a, b := n / 256, n / 0x1_0000;
    assert n == 256 * a + n % 256;
    assert a / 256 == b && a == 256 * b + a % 256;
    assert b / 256 == n / 0x100_0000 && b == 256 * (b / 256) + b % 256;
  }

  /** What a client may put into a header. */
  predicate Sendable(r: Request) {
    match r
    case Write(k, p) => k < 0x1_0000_0000 && |p| < 0x1_0000_0000
    case Read(k) => k < 0x1_0000_0000
    case Delete(k) => k < 0x1_0000_0000
    case Fire => true
    case Unknown(op) => !(OP_READ <= op <= OP_FIRE)
  }

  function Encode(r: Request): seq<Byte>
    requires Sendable(r)
  {
    match r
    case Write(k, p) => [OP_WRITE] + Bytes32(k) + Bytes32(|p|) + p
    case Read(k) => [OP_READ] + Bytes32(k) + Bytes32(0)
    case Delete(k) => [OP_DELETE] + Bytes32(k) + Bytes32(0)
    case Fire => [OP_FIRE] + Bytes32(0) + Bytes32(0)
    case Unknown(op) => [op] + Bytes32(0) + Bytes32(0)
  }

  function EncodeAll(rs: seq<Request>): seq<Byte>
    requires AllSendable(rs)
  {
    if rs == [] then [] else Encode(rs[0]) + EncodeAll(rs[1..])
  }

  function RequestOf(op: Byte, key: nat, payload: seq<Byte>): Request {
    if op == OP_WRITE then Write(key, payload)
    else if op == OP_READ then Read(key)
    else if op == OP_DELETE then Delete(key)
    else if op == OP_FIRE then Fire
    else Unknown(op)
  }

  datatype Parsed = Parsed(request: Request, size: nat)

  /** The first request of a stream as the server takes it: at most 255 bytes of
      payload are received, whatever the header announces.  `None`: more bytes are awaited. */
  function ParseOne(s: seq<Byte>): (p: Option<Parsed>)
    ensures p.Some? ==> HEADER <= p.value.size <= |s|
    ensures p.Some? && p.value.request.Write? ==> |p.value.request.payload| < VALUE_SIZE
  {
    if |s| < HEADER then None
    else
      var op, key, announced := s[0], Number32(s[1..5]), Number32(s[5..9]);
      var taken := if op != OP_WRITE then 0 else if announced >= VALUE_SIZE then VALUE_SIZE - 1 else announced;
      if |s| < HEADER + taken then None
      else Some(Parsed(RequestOf(op, key, s[HEADER..HEADER + taken]), HEADER + taken))
  }

  function Parse(s: seq<Byte>): seq<Request>
    decreases |s|
  {
    match ParseOne(s)
    case None => []
    case Some(p) => [p.request] + Parse(s[p.size..])
  }

  const FIRE_TEXT: seq<Byte> := [70, 105, 114, 101, 33]     // "Fire!"

  function StatusByte(s: Status): Byte { match s case OK => 0 case NOT_FOUND => 1 case ERROR => 2 }

  /** `response_hdr` in network order, and the value. */
  function ResponseBytes(r: Response): seq<Byte> {
    match r
    case Response(status, value) =>
      [StatusByte(status)] + Bytes32(if |value| < 0x1_0000_0000 then |value| else 0) + value
    case Fired => [0, 0, 0, 0, 0] + FIRE_TEXT     // the header's length is set only after it is sent
    case Silence => []
  }

  function ResponsesBytes(rs: seq<Response>): seq<Byte> {
    if rs == [] then [] else ResponsesBytes(rs[..|rs| - 1]) + ResponseBytes(rs[|rs| - 1])
  }

  /** A WRITE that announces no more than the server is going to receive. */
  predicate Fits(r: Request) { r.Write? ==> |r.payload| < VALUE_SIZE }

  lemma HeaderAt(s: seq<Byte>, op: Byte, key: nat, len: nat, rest: seq<Byte>)
    requires key < 0x1_0000_0000 && len < 0x1_0000_0000
    requires s == [op] + Bytes32(key) + Bytes32(len) + rest
    ensures |s| == HEADER + |rest| && s[0] == op && s[HEADER..] == rest
    ensures Number32(s[1..5]) == key && Number32(s[5..9]) == len
  {
    NumberBytes(key);
    NumberBytes(len);
    assert s[1..5] == Bytes32(key) && s[5..9] == Bytes32(len);
  }

  /** The server reads back a request that fits, and goes on behind it. */
  lemma ParseEncoded(r: Request, rest: seq<Byte>)
    requires Sendable(r) && Fits(r)
    ensures Parse(Encode(r) + rest) == [r] + Parse(rest)
  {
    var s := Encode(r) + rest;
    match r {
      case Write(k, p) =>
        assert s == [OP_WRITE] + Bytes32(k) + Bytes32(|p|) + (p + rest);
        HeaderAt(s, OP_WRITE, k, |p|, p + rest);
        assert s[HEADER..HEADER + |p|] == (p + rest)[..|p|] == p;
        assert s[HEADER + |p|..] == rest;
        assert ParseOne(s) == Some(Parsed(r, HEADER + |p|));
      case Read(k) => PlainParsed(s, OP_READ, k, rest, r);
      case Delete(k) => PlainParsed(s, OP_DELETE, k, rest, r);
      case Fire => PlainParsed(s, OP_FIRE, 0, rest, r);
      case Unknown(op) => PlainParsed(s, op, 0, rest, r);
    }
  }

  lemma PlainParsed(s: seq<Byte>, op: Byte, key: nat, rest: seq<Byte>, r: Request)
    requires op != OP_WRITE && key < 0x1_0000_0000 && r == RequestOf(op, key, [])
    requires s == [op] + Bytes32(key) + Bytes32(0) + rest
    ensures Parse(s) == [r] + Parse(rest)
  {
    HeaderAt(s, op, key, 0, rest);
    assert s[HEADER..HEADER + 0] == [];
    assert ParseOne(s) == Some(Parsed(r, HEADER));
  }

  /** What a WRITE announces beyond 255 bytes is read as the next requests. */
  lemma OverflowIsParsed(key: nat, payload: seq<Byte>, rest: seq<Byte>)
    requires Sendable(Write(key, payload)) && |payload| >= VALUE_SIZE
    ensures Parse(Encode(Write(key, payload)) + rest) ==
            [Write(key, payload[..VALUE_SIZE - 1])] + Parse(payload[VALUE_SIZE - 1..] + rest)
  {
    var s := Encode(Write(key, payload)) + rest;
    var taken := VALUE_SIZE - 1;
    assert s == [OP_WRITE] + Bytes32(key) + Bytes32(|payload|) + (payload + rest);
    HeaderAt(s, OP_WRITE, key, |payload|, payload + rest);
    assert s[HEADER..HEADER + taken] == (payload + rest)[..taken] == payload[..taken];
    assert s[HEADER + taken..] == (payload + rest)[taken..] == payload[taken..] + rest;
    assert ParseOne(s) == Some(Parsed(Write(key, payload[..taken]), HEADER + taken));
  }

  /** The empty stream, the empty run, and a request without payload. */
  lemma Smallest(m: Contents)
    ensures Parse([]) == [] && MapRun(m, []) == m && ResponsesBytes([]) == []
    ensures ResponsesBytes(MapResponses(m, [])) == [] && |Encode(Delete(1))| == HEADER
  {
  }

  predicate AllFit(rs: seq<Request>) { forall k :: 0 <= k < |rs| ==> Fits(rs[k]) }

  predicate AllSendable(rs: seq<Request>) { forall k :: 0 <= k < |rs| ==> Sendable(rs[k]) }

  lemma AllOfRest(rs: seq<Request>)
    requires rs != []
    ensures AllFit(rs) <==> Fits(rs[0]) && AllFit(rs[1..])
    ensures AllSendable(rs) ==> AllSendable(rs[1..]) && Sendable(rs[0])
  {
    if AllFit(rs[1..]) && Fits(rs[0]) {
      forall k | 0 <= k < |rs| ensures Fits(rs[k]) {
        if k > 0 { assert rs[1..][k - 1] == rs[k]; }
      }
    }
  }

  /** The server executes the requests that were sent if and only if every WRITE
      announces at most 255 bytes. */
  lemma {:induction false} ParsedExactly(rs: seq<Request>)
    requires AllSendable(rs)
    ensures Parse(EncodeAll(rs)) == rs <==> AllFit(rs)
  {
    assert rs == [] ==> EncodeAll(rs) == [] && AllFit(rs);
    assert rs != [] ==> EncodeAll(rs) == Encode(rs[0]) + EncodeAll(rs[1..]);
    hide Parse, Encode, EncodeAll, AllFit, AllSendable;
    if rs == [] {
      Smallest(map[]);
    } else {
      var rest := rs[1..];
      AllOfRest(rs);
      ParsedExactly(rest);
      if Fits(rs[0]) {
        ParseEncoded(rs[0], EncodeAll(rest));
        assert rs == [rs[0]] + rest;
        assert ([rs[0]] + Parse(EncodeAll(rest)))[1..] == Parse(EncodeAll(rest));
      } else {
        OverflowIsParsed(rs[0].key, rs[0].payload, EncodeAll(rest));
        assert Parse(EncodeAll(rs))[0] != rs[0];
      }
    }
  }

  /** So, for requests that fit, the answers sent are those of the map to what was sent. */
  lemma AnswersToSent(m: Contents, rs: seq<Request>)
    requires AllSendable(rs) && AllFit(rs)
    ensures MapResponses(m, Parse(EncodeAll(rs))) == MapResponses(m, rs)
    ensures MapRun(m, Parse(EncodeAll(rs))) == MapRun(m, rs)
  {
    ParsedExactly(rs);
  }

  /** What is sent, and what is executed, when a WRITE of 264 bytes ends like a DELETE. */
  predicate OverlongWrite(text: seq<Byte>, sent: seq<Request>, executed: seq<Request>) {
    && |text| == VALUE_SIZE - 1
    && sent == [Write(1, text + Encode(Delete(1))), Read(1)]
    && executed == [Write(1, text), Delete(1), Read(1)]
  }

  /** What is sent asks for the value just written, what is executed finds the key gone. */
  lemma OverlongWriteDeletes(text: seq<Byte>, sent: seq<Request>, executed: seq<Request>)
    requires OverlongWrite(text, sent, executed)
    ensures AllSendable(sent)
    ensures Parse(EncodeAll(sent)) == executed
    ensures MapResponses(map[], sent)[1] == Response(OK, Stored(text))
    ensures MapResponses(map[], executed)[2] == Response(NOT_FOUND, [])
  {
    OverlongParsed(text, sent, executed);
    OverlongAnswers(text, sent, executed);
  }

  lemma OverlongParsed(text: seq<Byte>, sent: seq<Request>, executed: seq<Request>)
    requires OverlongWrite(text, sent, executed)
    ensures AllSendable(sent)
    ensures Parse(EncodeAll(sent)) == executed
  {
    hide Parse, Encode;
    var tail, read := Encode(Delete(1)), Encode(Read(1));
    assert |tail| == HEADER by { Smallest(map[]); }
    var payload := text + tail;
    assert payload[..VALUE_SIZE - 1] == text && payload[VALUE_SIZE - 1..] == tail;
    OverflowIsParsed(1, payload, read);
    ParseEncoded(Delete(1), read);
    ParseEncoded(Read(1), []);
    assert read + [] == read;
    Smallest(map[]);
    EncodeTwo(sent[0], sent[1]);
    assert sent == [sent[0], sent[1]];
  }

  lemma EncodeTwo(a: Request, b: Request)
    requires Sendable(a) && Sendable(b)
    ensures EncodeAll([a, b]) == Encode(a) + Encode(b)
  {
    hide Encode;
    assert [a, b][1..] == [b] && [b][1..] == [];
    assert EncodeAll([b]) == Encode(b) + [];
  }

  lemma OverlongAnswers(text: seq<Byte>, sent: seq<Request>, executed: seq<Request>)
    requires OverlongWrite(text, sent, executed)
    ensures MapResponses(map[], sent)[1] == Response(OK, Stored(text))
    ensures MapResponses(map[], executed)[2] == Response(NOT_FOUND, [])
  {
    hide Encode, MapResponses, UpToNul;
    var none: seq<Request> := [];
    assert (text + Encode(Delete(1)))[..VALUE_SIZE - 1] == text;
    assert |Encode(Delete(1))| == HEADER by { Smallest(map[]); }
    ExtendRun(map[], none, sent[0]);
    ExtendRun(map[], none + [sent[0]], sent[1]);
    assert sent == none + [sent[0]] + [sent[1]];
    ExtendRun(map[], executed[..1], executed[1]);
    ExtendRun(map[], executed[..2], executed[2]);
    assert executed[..2] == executed[..1] + [executed[1]] && executed == executed[..2] + [executed[2]];
  }

  lemma ParsesAt(input: seq<Byte>, pos: nat, taken: nat, req: Request)
    requires pos + HEADER + taken <= |input|
    requires var announced := Number32(input[pos + 5..pos + 9]);
             taken == if input[pos] != OP_WRITE then 0
                      else if announced >= VALUE_SIZE then VALUE_SIZE - 1 else announced
    requires req == RequestOf(input[pos], Number32(input[pos + 1..pos + 5]), input[pos + HEADER..pos + HEADER + taken])
    ensures Parse(input[pos..]) == [req] + Parse(input[pos + HEADER + taken..])
  {
    var s := input[pos..];
    assert s[1..5] == input[pos + 1..pos + 5] && s[5..9] == input[pos + 5..pos + 9];
    assert s[HEADER..HEADER + taken] == input[pos + HEADER..pos + HEADER + taken];
    assert ParseOne(s) == Some(Parsed(req, HEADER + taken));
    assert s[HEADER + taken..] == input[pos + HEADER + taken..];
  }

  lemma AwaitsMore(input: seq<Byte>, pos: nat)
    requires pos <= |input|
    requires |input| - pos >= HEADER ==>
               && input[pos] == OP_WRITE
               && var announced := Number32(input[pos + 5..pos + 9]);
                  |input| - pos - HEADER < if announced >= VALUE_SIZE then VALUE_SIZE - 1 else announced
    ensures Parse(input[pos..]) == []
  {
    var s := input[pos..];
    if |s| >= HEADER { assert s[5..9] == input[pos + 5..pos + 9]; }
    assert ParseOne(s).None?;
  }

  // ---- The program ----

  class Database {
    const db: array<Entry>

    constructor ()
      ensures fresh(db) && Valid() && Abs(db[..]) == map[]
    {
      db := new Entry[MAX_ENTRIES](_ => Entry(0, [], false));
      new;
      assert Keys(db[..]) == {};
    }

    /** Keys are unique, and every value fits its buffer with the terminating NUL. */
    ghost predicate Valid() reads this, db {
      db.Length == MAX_ENTRIES && Unique(db[..]) && forall i :: 0 <= i < db.Length ==> |db[i].value| < VALUE_SIZE
    }

    method FindEntry(key: nat) returns (idx: int)
      ensures idx == Find(db[..], key)
    {
      var i := 0;
      while i < db.Length
        invariant 0 <= i <= db.Length
        invariant forall k :: 0 <= k < i ==> !(db[k].inUse && db[k].key == key)
      {
        if db[i].inUse && db[i].key == key {
          FirstFound(db[..], key, i);
          return i;
        }
        i := i + 1;
      }
      FirstFound(db[..], key, -1);
      return -1;
    }

    method FindFree() returns (idx: int)
      ensures -1 <= idx < db.Length && (idx >= 0 ==> !db[idx].inUse)
      ensures idx < 0 ==> forall k :: 0 <= k < db.Length ==> db[k].inUse
    {
      var i := 0;
      while i < db.Length
        invariant 0 <= i <= db.Length
        invariant forall k :: 0 <= k < i ==> db[k].inUse
      {
        if !db[i].inUse { return i; }
        i := i + 1;
      }
      return -1;
    }

    /** One request: the table changes and answers as the map does; a refused or
        failed request changes no slot. */
    method Process(req: Request) returns (res: Response)
      requires Valid() && (req.Write? ==> |req.payload| < VALUE_SIZE)
      modifies db
      ensures Valid()
      ensures Abs(db[..]) == MapAfter(old(Abs(db[..])), req)
      ensures res == MapResponse(old(Abs(db[..])), req)
      ensures res.Response? && res.status != OK ==> db[..] == old(db[..])
      ensures req.Read? ==>
                var i := Find(old(db[..]), req.key);
                db[..] == old(db[..]) && res == if i >= 0 then Response(OK, db[i].value) else Response(NOT_FOUND, [])
      ensures req.Delete? ==> res == Response(if Find(old(db[..]), req.key) >= 0 then OK else NOT_FOUND, [])
      ensures res == Response(ERROR, []) <==>
                req.Write? && Find(old(db[..]), req.key) < 0 && old(forall i :: 0 <= i < db.Length ==> db[i].inUse)
    {
      match req {
        case Write(key, payload) => res := DoWrite(key, payload);
        case Read(key) =>
          var idx := FindEntry(key);
          FindNone(db[..], key);
          if idx != -1 {
            FindUnique(db[..], idx);
            res := Response(OK, db[idx].value);
          } else {
            res := Response(NOT_FOUND, []);
          }
        case Delete(key) => res := DoDelete(key);
        case Fire => res := Fired;
        case Unknown(_) => res := Silence;
      }
    }

    method DoWrite(key: nat, payload: seq<Byte>) returns (res: Response)
      requires Valid() && |payload| < VALUE_SIZE
      modifies db
      ensures Valid()
      ensures Abs(db[..]) == MapAfter(old(Abs(db[..])), Write(key, payload))
      ensures res == MapResponse(old(Abs(db[..])), Write(key, payload))
      ensures res.Response? && res.status != OK ==> db[..] == old(db[..])
      ensures res == Response(ERROR, []) <==>
                Find(old(db[..]), key) < 0 && old(forall i :: 0 <= i < db.Length ==> db[i].inUse)
    {
      hide Abs, Unique;
      res := Response(OK, []);
      var idx := FindEntry(key);
      FindNone(db[..], key);
      FullExactly(db[..]);
      if idx == -1 {
        idx := FindFree();
      }
      if idx != -1 {
        StoreIsUpdate(db[..], idx, key, Stored(payload));
        ghost var before := db[..];
        db[idx] := Entry(key, Stored(payload), true);
        assert db[..] == before[idx := Entry(key, Stored(payload), true)];
      } else {
        res := res.(status := ERROR);
      }
    }

    method DoDelete(key: nat) returns (res: Response)
      requires Valid()
      modifies db
      ensures Valid()
      ensures Abs(db[..]) == MapAfter(old(Abs(db[..])), Delete(key))
      ensures res == MapResponse(old(Abs(db[..])), Delete(key))
      ensures res.Response? && res.status != OK ==> db[..] == old(db[..])
      ensures res == Response(if Find(old(db[..]), key) >= 0 then OK else NOT_FOUND, [])
      ensures forall i :: 0 <= i < db.Length ==> db[i] == old(db[i]) || (i == Find(old(db[..]), key) && !db[i].inUse)
    {
      hide Abs, Unique;
      res := Response(OK, []);
      var idx := FindEntry(key);
      FindNone(db[..], key);
      if idx != -1 {
        FreeIsRemove(db[..], idx, key);
        ghost var before := db[..];
        db[idx] := db[idx].(inUse := false);
        assert db[..] == before[idx := before[idx].(inUse := false)];
      } else {
        res := res.(status := NOT_FOUND);
      }
    }

    /** The request loop, once `input` has been received and no more: the requests
        parsed from it are executed, and the bytes sent are the map's answers to them. */
    method Serve(input: seq<Byte>) returns (output: seq<Byte>)
      requires Valid()
      modifies db
      ensures Valid()
      ensures Abs(db[..]) == MapRun(old(Abs(db[..])), Parse(input))
      ensures output == ResponsesBytes(MapResponses(old(Abs(db[..])), Parse(input)))
    {
      hide Parse, Abs, Unique, MapRun, MapResponses, ResponsesBytes, ResponseBytes, Number32;
      ghost var start, done := Abs(db[..]), [];
      Smallest(start);
      output := [];
      var pos := 0;
      assert input[0..] == input;
      while |input| - pos >= HEADER
        invariant 0 <= pos <= |input| && Valid()
        invariant Parse(input) == done + Parse(input[pos..])
        invariant Abs(db[..]) == MapRun(start, done)
        invariant output == ResponsesBytes(MapResponses(start, done))
        decreases |input| - pos
      {
        var op, key, valLen := input[pos], Number32(input[pos + 1..pos + 5]), Number32(input[pos + 5..pos + 9]);
        var taken := 0;
        if op == OP_WRITE {
          if valLen >= VALUE_SIZE { valLen := VALUE_SIZE - 1; }
          if |input| - pos - HEADER < valLen { break; }
          taken := valLen;
        }
        var req := RequestOf(op, key, input[pos + HEADER..pos + HEADER + taken]);
        ParsesAt(input, pos, taken, req);
        var res := Process(req);
        ExtendRun(start, done, req);
        done := done + [req];
        output := output + ResponseBytes(res);
        pos := pos + HEADER + taken;
      }
      AwaitsMore(input, pos);
      assert done + [] == done;
    }
  }

  lemma ExtendRun(m: Contents, rs: seq<Request>, r: Request)
    ensures MapRun(m, rs + [r]) == MapAfter(MapRun(m, rs), r)
    ensures MapResponses(m, rs + [r]) == MapResponses(m, rs) + [MapResponse(MapRun(m, rs), r)]
    ensures ResponsesBytes(MapResponses(m, rs + [r])) ==
            ResponsesBytes(MapResponses(m, rs)) + ResponseBytes(MapResponse(MapRun(m, rs), r))
  {
    assert (rs + [r])[..|rs + [r]| - 1] == rs;
    BytesOfLast(MapResponses(m, rs), MapResponse(MapRun(m, rs), r));
  }

  lemma FirstFound(db: seq<Entry>, key: nat, i: int)
    requires -1 <= i < |db| && (i >= 0 ==> db[i].inUse && db[i].key == key)
    requires forall k :: 0 <= k < (if i >= 0 then i else |db|) ==> !(db[k].inUse && db[k].key == key)
    ensures Find(db, key) == i
  {
  }

  // ---- What clients can rely on ----

  /** The keys held after some requests: a WRITE of a new key is refused while there are a hundred. */
  function HeldKeys(rs: seq<Request>): set<nat> {
    if rs == [] then {}
    else
      var held, r := HeldKeys(rs[..|rs| - 1]), rs[|rs| - 1];
      match r
      case Write(k, _) => if k in held || |held| < 100 then held + {k} else held
      case Delete(k) => held - {k}
      case _ => held
  }

  /** What was last written under a key, unless it was refused or deleted since. */
  function Latest(rs: seq<Request>, key: nat): Option<seq<Byte>> {
    if rs == [] then None
    else
      var before, r := rs[..|rs| - 1], rs[|rs| - 1];
      match r
      case Write(k, p) =>
        if k != key then Latest(before, key)
        else if key in HeldKeys(rs) then Some(Stored(p)) else None
      case Delete(k) => if k == key then None else Latest(before, key)
      case _ => Latest(before, key)
  }

  lemma KeysOfUpdate(m: Contents, k: nat, value: seq<Byte>)
    ensures m[k := value].Keys == m.Keys + {k} && (m - {k}).Keys == m.Keys - {k} && |m| == |m.Keys|
  {
  }

  lemma KeysAfter(m: Contents, r: Request)
    requires |m| <= 100
    ensures |MapAfter(m, r)| <= 100
    ensures MapAfter(m, r).Keys ==
            match r
            case Write(k, _) => if k in m.Keys || |m.Keys| < 100 then m.Keys + {k} else m.Keys
            case Delete(k) => m.Keys - {k}
            case _ => m.Keys
  {
    match r {
      case Write(k, p) =>
        KeysOfUpdate(m, k, Stored(p));
        SizeOfUnion(m.Keys, k);
      case Delete(k) =>
        KeysOfUpdate(m, k, []);
        SizeOfUnion(m.Keys, k);
      case _ =>
    }
    assert |MapAfter(m, r)| == |MapAfter(m, r).Keys|;
  }

  lemma {:induction false} KeysAreHeld(rs: seq<Request>)
    ensures MapRun(map[], rs).Keys == HeldKeys(rs) && |MapRun(map[], rs)| == |HeldKeys(rs)| <= 100
    decreases |rs|
  {
    if rs != [] {
      KeysAreHeld(rs[..|rs| - 1]);
      KeysAfter(MapRun(map[], rs[..|rs| - 1]), rs[|rs| - 1]);
      hide MapAfter;
    }
    assert |MapRun(map[], rs)| == |MapRun(map[], rs).Keys|;
  }

  /** The map holds the held keys, with what was last written, and never more than a hundred. */
  lemma {:induction false} MapIsHistory(rs: seq<Request>, key: nat)
    ensures MapRun(map[], rs).Keys == HeldKeys(rs) && |HeldKeys(rs)| <= 100
    ensures key in HeldKeys(rs) <==> Latest(rs, key).Some?
    ensures key in MapRun(map[], rs) ==> MapRun(map[], rs)[key] == Latest(rs, key).value
    decreases |rs|
  {
    KeysAreHeld(rs);
    if rs != [] {
      var before, r := rs[..|rs| - 1], rs[|rs| - 1];
      MapIsHistory(before, key);
      ValueAfter(MapRun(map[], before), r, key);
      hide MapAfter, Stored;
    }
  }

  lemma ValueAfter(m: Contents, r: Request, key: nat)
    ensures var m' := MapAfter(m, r);
            match r
            case Write(k, p) =>
              if k == key then if key in m || |m| < MAX_ENTRIES then key in m' && m'[key] == Stored(p) else m' == m
              else (key in m' <==> key in m) && (key in m ==> m'[key] == m[key])
            case Delete(k) =>
              if k == key then key !in m' else (key in m' <==> key in m) && (key in m ==> m'[key] == m[key])
            case _ => m' == m
  {
  }

  lemma SizeOfUnion(s: set<nat>, k: nat)
    ensures |s + {k}| == if k in s then |s| else |s| + 1
    ensures |s - {k}| <= |s|
  {
    assert k in s ==> s + {k} == s;
    assert k !in s ==> s - {k} == s;
  }

  /** How each request is answered after any others: a READ with what was last written, a
      DELETE by whether there was anything, a WRITE by whether there is room. */
  lemma AnswersFromHistory(rs: seq<Request>, key: nat, payload: seq<Byte>)
    ensures MapResponses(map[], rs + [Read(key)]) == MapResponses(map[], rs) +
            [if Latest(rs, key).Some? then Response(OK, Latest(rs, key).value) else Response(NOT_FOUND, [])]
    ensures MapResponses(map[], rs + [Delete(key)]) == MapResponses(map[], rs) +
            [Response(if Latest(rs, key).Some? then OK else NOT_FOUND, [])]
    ensures MapResponses(map[], rs + [Write(key, payload)]) == MapResponses(map[], rs) +
            [Response(if Latest(rs, key).Some? || |HeldKeys(rs)| < 100 then OK else ERROR, [])]
  {
    MapIsHistory(rs, key);
    var m := MapRun(map[], rs);
    KeysOfUpdate(m, key, []);
    ExtendRun(map[], rs, Read(key));
    ExtendRun(map[], rs, Delete(key));
    ExtendRun(map[], rs, Write(key, payload));
    hide MapRun, MapResponses, Latest, HeldKeys, ResponsesBytes;
  }

  /** The end of what is stored: 255 bytes, the whole payload, or before its first NUL. */
  lemma {:induction false} StoredExactly(payload: seq<Byte>)
    ensures Stored(payload) <= payload && 0 !in Stored(payload) && |Stored(payload)| <= 255
    ensures |Stored(payload)| == 255 || |Stored(payload)| == |payload| || payload[|Stored(payload)|] == 0
  {
    UpToNulExactly(if |payload| >= VALUE_SIZE then payload[..VALUE_SIZE - 1] else payload);
  }

  lemma {:induction false} UpToNulExactly(s: seq<Byte>)
    ensures UpToNul(s) <= s && 0 !in UpToNul(s)
    ensures |UpToNul(s)| == |s| || s[|UpToNul(s)|] == 0
  {
    if s != [] && s[0] != 0 {
      UpToNulExactly(s[1..]);
      assert s == [s[0]] + s[1..];
    }
  }

  // ---- The bytes on the wire ----

  /** `kv_protocol.h`: operation, key and length of a request, in network order. */
  lemma RequestsOnTheWire(payload: seq<Byte>)
    requires payload == [72, 105]
    ensures Encode(Read(7)) == [1] + [0, 0, 0, 7] + [0, 0, 0, 0]
    ensures Encode(Write(0x01020304, payload)) == [2] + [1, 2, 3, 4] + [0, 0, 0, 2] + [72, 105]
    ensures Encode(Delete(258)) == [3] + [0, 0, 1, 2] + [0, 0, 0, 0]
    ensures Encode(Fire) == [4] + [0, 0, 0, 0] + [0, 0, 0, 0]
  {
  }

  /** Status and length of a response, and what follows it. */
  lemma ResponsesOnTheWire(value: seq<Byte>)
    requires |value| < VALUE_SIZE
    ensures ResponseBytes(Response(OK, value)) == [0] + [0, 0, 0, |value|] + value
    ensures ResponseBytes(Response(NOT_FOUND, [])) == [1, 0, 0, 0, 0]
    ensures ResponseBytes(Response(ERROR, [])) == [2, 0, 0, 0, 0]
    ensures ResponseBytes(Fired) == [0, 0, 0, 0, 0] + [70, 105, 114, 101, 33] && ResponseBytes(Silence) == []
  {
  }

  // ---- What a client reads ----

  const ANSWER := 5                 // sizeof(struct response_hdr)

  /** The answers in a stream of bytes: a header, and as many bytes as it announces. */
  function ReadAnswers(s: seq<Byte>): seq<Response>
    decreases |s|
  {
    if |s| < ANSWER || |s| < ANSWER + Number32(s[1..ANSWER]) then []
    else
      var size := ANSWER + Number32(s[1..ANSWER]);
      [Response(StatusOf(s[0]), s[ANSWER..size])] + ReadAnswers(s[size..])
  }

  function StatusOf(b: Byte): Status { if b == 0 then OK else if b == 1 then NOT_FOUND else ERROR }

  predicate Plain(r: Response) { r.Response? && |r.value| < VALUE_SIZE }

  lemma AnswerReadBack(r: Response, rest: seq<Byte>)
    requires Plain(r)
    ensures ReadAnswers(ResponseBytes(r) + rest) == [r] + ReadAnswers(rest)
  {
    var s, n := ResponseBytes(r) + rest, |r.value|;
    NumberBytes(n);
    assert s[1..ANSWER] == Bytes32(n);
    assert s[ANSWER..ANSWER + n] == r.value && s[ANSWER + n..] == rest;
  }

  lemma {:induction false} BytesFromFront(rs: seq<Response>)
    requires rs != []
    ensures ResponsesBytes(rs) == ResponseBytes(rs[0]) + ResponsesBytes(rs[1..])
    decreases |rs|
  {
    hide ResponseBytes, ResponsesBytes;
    var n := |rs| - 1;
    BytesOfLast(rs[..n], rs[n]);
    assert rs == rs[..n] + [rs[n]];
    if n == 0 {
      Smallest(map[]);
      assert rs[..0] == [] && rs[1..] == [];
    } else {
      BytesFromFront(rs[..n]);
      BytesOfLast(rs[1..n], rs[n]);
      assert rs[..n][1..] == rs[1..n] && rs[1..] == rs[1..n] + [rs[n]];
    }
  }

  lemma BytesOfLast(rs: seq<Response>, r: Response)
    ensures ResponsesBytes(rs + [r]) == ResponsesBytes(rs) + ResponseBytes(r)
  {
    assert (rs + [r])[..|rs + [r]| - 1] == rs;
  }

  // ---- Which answers are read as they are meant ----

  predicate Sound(r: Response) { Plain(r) || r.Fired? || r.Silence? }

  predicate AllSound(rs: seq<Response>) { forall k :: 0 <= k < |rs| ==> Sound(rs[k]) }

  /** What the server means to say: FIRE gets a text, an unknown operation nothing. */
  function Meant(rs: seq<Response>): seq<Response> {
    if rs == [] then []
    else (match rs[0] case Fired => [Response(OK, FIRE_TEXT)] case Silence => [] case _ => [rs[0]]) + Meant(rs[1..])
  }

  lemma FireReadsEmpty(rest: seq<Byte>)
    ensures ReadAnswers(ResponseBytes(Fired) + rest) == [Response(OK, [])] + ReadAnswers(FIRE_TEXT + rest)
  {
    var s := ResponseBytes(Fired) + rest;
    assert s[1..ANSWER] == [0, 0, 0, 0] && s[ANSWER..] == FIRE_TEXT + rest;
    assert s[ANSWER..ANSWER + 0] == [];
  }

  lemma SoundRest(rs: seq<Response>)
    requires rs != []
    ensures AllSound(rs) ==> Sound(rs[0]) && AllSound(rs[1..])
    ensures Fired in rs <==> rs[0] == Fired || Fired in rs[1..]
  {
    assert rs == [rs[0]] + rs[1..];
  }

  lemma MeantFirst(rs: seq<Response>)
    requires rs != []
    ensures Meant(rs) == Meant([rs[0]]) + Meant(rs[1..])
  {
    assert [rs[0]][1..] == [];
  }

  /** Any other answer is read as it is meant, whatever follows. */
  lemma ReadOne(r: Response, rest: seq<Byte>)
    requires Sound(r) && r != Fired
    ensures ReadAnswers(ResponseBytes(r) + rest) == Meant([r]) + ReadAnswers(rest)
  {
    hide ReadAnswers;
    if r.Silence? {
      assert [] + rest == rest && Meant([r]) == [] && [] + ReadAnswers(rest) == ReadAnswers(rest);
    } else {
      assert Meant([r]) == [r];
      AnswerReadBack(r, rest);
    }
  }

  /** The answers are read as they are meant if and only if none of them is that to a FIRE. */
  lemma {:induction false} ReadBackExactly(rs: seq<Response>)
    requires AllSound(rs)
    ensures ReadAnswers(ResponsesBytes(rs)) == Meant(rs) <==> Fired !in rs
    decreases |rs|
  {
    if rs == [] {
      Smallest(map[]);
    } else {
      var bytes, first := ResponsesBytes(rs[1..]), Meant([rs[0]]);
      SoundRest(rs);
      BytesFromFront(rs);
      ReadBackExactly(rs[1..]);
      MeantFirst(rs);
      if rs[0] == Fired {
        FireReadsEmpty(bytes);
        FireIsMeant();
        hide ReadAnswers, ResponsesBytes, ResponseBytes, Meant, AllSound;
        assert ([Response(OK, [])] + ReadAnswers(FIRE_TEXT + bytes))[0] == Response(OK, []);
        assert ([Response(OK, FIRE_TEXT)] + Meant(rs[1..]))[0] == Response(OK, FIRE_TEXT);
      } else {
        ReadOne(rs[0], bytes);
        hide ReadAnswers, ResponsesBytes, ResponseBytes, Meant, AllSound;
        assert (first + ReadAnswers(bytes))[|first|..] == ReadAnswers(bytes);
        assert (first + Meant(rs[1..]))[|first|..] == Meant(rs[1..]);
      }
    }
  }

  lemma FireIsMeant()
    ensures Meant([Fired]) == [Response(OK, FIRE_TEXT)]
  {
    assert [Fired][1..] == [];
  }

  /** Values that fit stay so, and every answer is sound. */
  lemma {:induction false} SoundAnswers(m: Contents, rs: seq<Request>)
    requires forall k :: k in m ==> |m[k]| < VALUE_SIZE
    ensures forall k :: k in MapRun(m, rs) ==> |MapRun(m, rs)[k]| < VALUE_SIZE
    ensures AllSound(MapResponses(m, rs))
    decreases |rs|
  {
    if rs != [] {
      SoundAnswers(m, rs[..|rs| - 1]);
    }
  }

  /** A FIRE is answered as one, an unknown operation not at all, everything else by a header. */
  lemma {:induction false} KindOfAnswer(m: Contents, rs: seq<Request>, k: nat)
    requires k < |rs|
    ensures MapResponses(m, rs)[k].Fired? <==> rs[k].Fire?
    ensures MapResponses(m, rs)[k].Silence? <==> rs[k].Unknown?
    decreases |rs|
  {
    if k < |rs| - 1 {
      KindOfAnswer(m, rs[..|rs| - 1], k);
    }
  }

  lemma FiredForFire(m: Contents, rs: seq<Request>)
    ensures Fired in MapResponses(m, rs) <==> Fire in rs
  {
    hide MapResponses, MapRun;
    var out := MapResponses(m, rs);
    if k :| 0 <= k < |rs| && rs[k] == Fire {
      KindOfAnswer(m, rs, k);
      assert out[k] == Fired;
    }
    if k :| 0 <= k < |out| && out[k] == Fired {
      KindOfAnswer(m, rs, k);
      assert rs[k] == Fire;
    }
  }

  /** From the client's requests to the client's answers: what is sent as bytes, parsed,
      executed, answered in bytes and read back is what the map means to say, if and
      only if there is no FIRE among the requests. */
  lemma EndToEnd(m: Contents, rs: seq<Request>)
    requires AllSendable(rs) && AllFit(rs)
    requires forall k :: k in m ==> |m[k]| < VALUE_SIZE
    ensures ReadAnswers(ResponsesBytes(MapResponses(m, Parse(EncodeAll(rs))))) == Meant(MapResponses(m, rs)) <==>
            Fire !in rs
    ensures (forall k :: 0 <= k < |rs| ==> !rs[k].Fire? && !rs[k].Unknown?) ==>
              ReadAnswers(ResponsesBytes(MapResponses(m, Parse(EncodeAll(rs))))) == MapResponses(m, rs)
  {
    hide ReadAnswers, ResponsesBytes, Meant, EncodeAll, Parse, MapRun, MapResponses;
    AnswersToSent(m, rs);
    SoundAnswers(m, rs);
    FiredForFire(m, rs);
    ReadBackExactly(MapResponses(m, rs));
    if forall k :: 0 <= k < |rs| ==> !rs[k].Fire? && !rs[k].Unknown? {
      forall k | 0 <= k < |rs| ensures MapResponses(m, rs)[k].Response? {
        KindOfAnswer(m, rs, k);
      }
      MeantIsAll(MapResponses(m, rs));
    }
  }

  /** With WRITE, READ and DELETE only, what is meant is one answer for each request. */
  lemma {:induction false} MeantIsAll(rs: seq<Response>)
    requires forall k :: 0 <= k < |rs| ==> rs[k].Response?
    ensures Meant(rs) == rs
    decreases |rs|
  {
    if rs != [] {
      MeantIsAll(rs[1..]);
      assert rs == [rs[0]] + rs[1..];
    }
  }

  // ---- What is read after a FIRE ----

  /** The length that "Fire!" announces when it is taken for a header. */
  const FIRE_LENGTH := 0x69726521

  lemma FireTextRead(rest: seq<Byte>)
    ensures ReadAnswers(FIRE_TEXT + rest) == [] <==> |rest| < FIRE_LENGTH
  {
    var s := FIRE_TEXT + rest;
    assert s[1..ANSWER] == [105, 114, 101, 33];
    assert Number32(s[1..ANSWER]) == FIRE_LENGTH;
  }

  lemma ReadOneMore(r: Response, tail: seq<Response>)
    requires Sound(r) && r != Fired
    ensures ReadAnswers(ResponsesBytes([r] + tail)) == Meant([r]) + ReadAnswers(ResponsesBytes(tail))
  {
    hide ReadAnswers, ResponsesBytes, ResponseBytes, Meant;
    BytesFromFront([r] + tail);
    assert ([r] + tail)[1..] == tail;
    ReadOne(r, ResponsesBytes(tail));
  }

  lemma Associative(a: seq<Response>, b: seq<Response>, c: seq<Response>)
    ensures a + (b + c) == (a + b) + c
  {
  }

  lemma {:induction false} MeantBefore(before: seq<Response>, rest: seq<Response>)
    requires AllSound(before) && Fired !in before
    ensures ReadAnswers(ResponsesBytes(before + rest)) == Meant(before) + ReadAnswers(ResponsesBytes(rest))
    decreases |before|
  {
    assert before == [] ==> Meant(before) == [];
    hide ReadAnswers, ResponsesBytes, Meant, AllSound;
    if before == [] {
      assert before + rest == rest;
    } else {
      var first, more := [before[0]], before[1..];
      SoundRest(before);
      MeantBefore(more, rest);
      assert before + rest == first + (more + rest) by {
        assert before == first + more;
        Associative(first, more, rest);
      }
      ReadOneMore(before[0], more + rest);
      MeantFirst(before);
      Associative(Meant(first), Meant(more), ReadAnswers(ResponsesBytes(rest)));
    }
  }

  /** A FIRE swallows what follows: the answers before it are read, then one empty OK,
      and nothing after that until another 0x69726521 bytes have been sent. */
  lemma FireSwallows(before: seq<Response>, after: seq<Response>)
    requires AllSound(before) && Fired !in before
    ensures ReadAnswers(ResponsesBytes(before + [Fired] + after)) == Meant(before) + [Response(OK, [])] <==>
            |ResponsesBytes(after)| < FIRE_LENGTH
  {
    hide ReadAnswers, ResponsesBytes, ResponseBytes, Meant;
    var bytes := ResponsesBytes(after);
    assert before + [Fired] + after == before + ([Fired] + after);
    MeantBefore(before, [Fired] + after);
    assert ([Fired] + after)[1..] == after;
    BytesFromFront([Fired] + after);
    FireReadsEmpty(bytes);
    FireTextRead(bytes);
    var read := ReadAnswers(FIRE_TEXT + bytes);
    var most := Meant(before) + [Response(OK, [])];
    assert Meant(before) + ([Response(OK, [])] + read) == most + read;
    assert read == [] ==> most + read == most;
    assert read != [] ==> |most + read| > |most|;
  }

  lemma {:induction false} RunOfBoth(m: Contents, a: seq<Request>, b: seq<Request>)
    ensures MapResponses(m, a + b) == MapResponses(m, a) + MapResponses(MapRun(m, a), b)
    ensures MapRun(m, a + b) == MapRun(MapRun(m, a), b)
    decreases |b|
  {
    if b == [] {
      assert a + b == a;
    } else {
      var n := |b| - 1;
      assert (a + b)[..|a + b| - 1] == a + b[..n];
      RunOfBoth(m, a, b[..n]);
    }
  }

  /** The same for requests: after the first FIRE the client learns nothing of the answers
      to all that it sends next, as long as these are shorter than what the text announces. */
  lemma FireEndsTheAnswers(m: Contents, before: seq<Request>, after: seq<Request>)
    requires AllSendable(before + [Fire] + after) && AllFit(before + [Fire] + after) && Fire !in before
    requires forall k :: k in m ==> |m[k]| < VALUE_SIZE
    ensures var sent := EncodeAll(before + [Fire] + after);
            var later := MapResponses(MapRun(m, before + [Fire]), after);
            var read := ReadAnswers(ResponsesBytes(MapResponses(m, Parse(sent))));
            read == Meant(MapResponses(m, before)) + [Response(OK, [])] <==> |ResponsesBytes(later)| < FIRE_LENGTH
  {
    var rs := before + [Fire] + after;
    hide ReadAnswers, ResponsesBytes, Meant, EncodeAll, Parse;
    AnswersToSent(m, rs);
    SoundAnswers(m, before);
    FiredForFire(m, before);
    RunOfBoth(m, before + [Fire], after);
    ExtendRun(m, before, Fire);
    FireSwallows(MapResponses(m, before), MapResponses(MapRun(m, before + [Fire]), after));
  }

  /** A table without a free slot is a full map, and a new key is refused by both. */
  lemma FullTableRefuses(db: seq<Entry>, key: nat, payload: seq<Byte>)
    requires Unique(db) && |db| == MAX_ENTRIES && Find(db, key) < 0
    ensures (forall i :: 0 <= i < |db| ==> db[i].inUse) <==>
            MapResponse(Abs(db), Write(key, payload)) == Response(ERROR, [])
    ensures (forall i :: 0 <= i < |db| ==> db[i].inUse) ==> MapAfter(Abs(db), Write(key, payload)) == Abs(db)
  {
    FullExactly(db);
    FindNone(db, key);
  }
}
