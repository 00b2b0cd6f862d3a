/** Authentication against rows cached by key prefix, and key rotation with a
    grace period. The table and the cache are modelled under one clock. */
module Auth {
  import opened Text

  datatype Option<+T> = None | Some(value: T)

  /** A row of `api_keys`; a hash stands for the one token it verifies. */
  datatype Row = Row(id: string, tenant: string, prefix: string, token: string,
                     createdAt: real, expiresAt: Option<real>, revokedAt: Option<real>, grace: int)

  datatype Entry = Entry(prefix: string, rows: seq<Row>, expiresAt: real)

  /** A key as the generator draws it. */
  datatype NewKey = NewKey(id: string, prefix: string, random: string) {
    function Token(): string { prefix + ("_" + random) }
  }

  datatype Code = MissingToken | InvalidToken | ExpiredToken | RevokedToken

  datatype Reply =
    | Accepted(tenant: string, id: string)
    | Rejected(code: Code)
    | KeyMade(key: NewKey)
    | InvalidGrace
    | KeyNotFound
    | Done

  const MIN_PREFIX := 8
  const MAX_PREFIX := 12
  const MAX_SIZE := 4096
  const GRACE_MIN := 1
  const GRACE_MAX := 86400

  // ----- the request -------------------------------------------------------

  /** str.find for one character. */
  function Index(s: string, c: char): (i: int)
    ensures -1 <= i < |s|
    ensures i >= 0 ==> s[i] == c && c !in s[..i]
    ensures i == -1 ==> c !in s
  {
    if s == "" then -1
    else if s[0] == c then 0
    else
      var i := Index(s[1..], c);
      if i == -1 then -1 else
        assert s[..i + 1] == [s[0]] + s[1..][..i];
        i + 1
  }

  function ExtractPrefix(token: string): Option<string> {
    var i := Index(token, '_');
    if MIN_PREFIX <= i <= MAX_PREFIX then Some(token[..i]) else None
  }

  function StripLeft(s: string): string {
    if s != "" && IsSpace(s[0]) then StripLeft(s[1..]) else s
  }

  function StripRight(s: string): string {
    if s != "" && IsSpace(s[|s| - 1]) then StripRight(s[..|s| - 1]) else s
  }

  function Strip(s: string): string { StripRight(StripLeft(s)) }

  /** The bearer token of an authorization header. */
  function Presented(header: string): Option<string> {
    var i := Index(header, ' ');
    if i == -1 || Lower(header[..i]) != "bearer" || Strip(header[i + 1..]) == "" then None
    else Some(Strip(header[i + 1..]))
  }

  // ----- rows --------------------------------------------------------------

  /** The first row whose hash verifies the token. */
  function FindRow(rows: seq<Row>, token: string): Option<Row> {
    if rows == [] then None else if rows[0].token == token then Some(rows[0]) else FindRow(rows[1..], token)
  }

  /** SELECT ... WHERE key_prefix = prefix. */
  function Candidates(rows: seq<Row>, prefix: string): seq<Row> {
    if rows == [] then []
    else (if rows[0].prefix == prefix then [rows[0]] else []) + Candidates(rows[1..], prefix)
  }

  predicate Revocable(r: Row, tenant: string, prefix: string) {
    r.prefix == prefix && r.tenant == tenant && r.revokedAt.None?
  }

  function RevokeOne(r: Row, tenant: string, prefix: string, now: real, grace: int): Row {
    if Revocable(r, tenant, prefix) then r.(revokedAt := Some(now), grace := grace) else r
  }

  /** UPDATE api_keys SET revoked_at, rotation_grace_seconds WHERE ... */
  function Revoke(rows: seq<Row>, tenant: string, prefix: string, now: real, grace: int): (r: seq<Row>)
    ensures |r| == |rows|
  {
    if rows == [] then []
    else [RevokeOne(rows[0], tenant, prefix, now, grace)] + Revoke(rows[1..], tenant, prefix, now, grace)
  }

  /** The row count the UPDATE reports is not zero. */
  predicate AnyRevocable(rows: seq<Row>, tenant: string, prefix: string) {
    exists i | 0 <= i < |rows| :: Revocable(rows[i], tenant, prefix)
  }

  predicate Expired(r: Row, now: real) { r.expiresAt.Some? && now > r.expiresAt.value }

  predicate PastGrace(r: Row, now: real) { r.revokedAt.Some? && now > r.revokedAt.value + r.grace as real }

  /** The reply for the row that matched. */
  function Judge(found: Option<Row>, now: real): Reply {
    if found.None? then Rejected(InvalidToken)
    else if Expired(found.value, now) then Rejected(ExpiredToken)
    else if PastGrace(found.value, now) then Rejected(RevokedToken)
    else Accepted(found.value.tenant, found.value.id)
  }

  // ----- the cache ---------------------------------------------------------

  function Lookup(store: seq<Entry>, prefix: string): (e: Option<Entry>)
    ensures e.Some? ==> e.value in store && e.value.prefix == prefix
    ensures e.None? ==> forall i | 0 <= i < |store| :: store[i].prefix != prefix
  {
    if store == [] then None else if store[0].prefix == prefix then Some(store[0]) else Lookup(store[1..], prefix)
  }

  function Without(store: seq<Entry>, prefix: string): (r: seq<Entry>)
    ensures forall e | e in r :: e in store && e.prefix != prefix
  {
    if store == [] then []
    else if store[0].prefix == prefix then Without(store[1..], prefix)
    else [store[0]] + Without(store[1..], prefix)
  }

  /** Overwriting a key keeps its place; a new key goes last. */
  function Assign(store: seq<Entry>, e: Entry): (r: seq<Entry>)
    ensures forall x | x in r :: x in store || x == e
  {
    if store == [] then [e]
    else if store[0].prefix == e.prefix then [e] + store[1..]
    else [store[0]] + Assign(store[1..], e)
  }

  function Live(store: seq<Entry>, prefix: string, now: real): Option<Entry> {
    var e := Lookup(store, prefix);
    if e.Some? && now <= e.value.expiresAt then e else None
  }

  function AfterGet(store: seq<Entry>, prefix: string, now: real): seq<Entry> {
    if Live(store, prefix, now).Some? then store else Without(store, prefix)
  }

  function AfterPut(store: seq<Entry>, e: Entry): seq<Entry> {
    Assign(if |store| >= MAX_SIZE && Lookup(store, e.prefix).None? then store[1..] else store, e)
  }

  // ----- steps -------------------------------------------------------------

  datatype World = World(db: seq<Row>, store: seq<Entry>, now: real)

  datatype Op =
    | Tick(elapsed: real)
    | Authenticate(header: string)
    | Invalidate(prefix: string)
    | Create(tenant: string, grace: int, expiresAt: Option<real>, key: NewKey)
    /** `wired` says whether the key manager has this service to notify. */
    | Rotate(tenant: string, prefix: string, grace: int, key: NewKey, wired: bool)

  predicate Possible(op: Op) {
    match op
    case Tick(elapsed) => elapsed >= 0.0
    case Create(_, _, _, key) => Generated(key)
    case Rotate(_, _, _, key, _) => Generated(key)
    case _ => true
  }

  predicate Generated(key: NewKey) { |key.prefix| == 8 && '_' !in key.prefix }

  predicate GraceOk(grace: int) { GRACE_MIN <= grace <= GRACE_MAX }

  function MadeRow(key: NewKey, tenant: string, now: real, expiresAt: Option<real>, grace: int): Row {
    Row(key.id, tenant, key.prefix, key.Token(), now, expiresAt, None, grace)
  }

  function AuthenticateStep(ttl: real, w: World, header: string): (World, Reply) {
    var token := Presented(header);
    if token.None? then (w, Rejected(MissingToken)) else
    var prefix := ExtractPrefix(token.value);
    if prefix.None? then (w, Rejected(InvalidToken)) else
    var hit := Live(w.store, prefix.value, w.now);
    var store := AfterGet(w.store, prefix.value, w.now);
    if hit.Some? then (w.(store := store), Judge(FindRow(hit.value.rows, token.value), w.now)) else
    var rows := Candidates(w.db, prefix.value);
    (w.(store := AfterPut(store, Entry(prefix.value, rows, w.now + ttl))), Judge(FindRow(rows, token.value), w.now))
  }

  function RotateStep(w: World, op: Op): (World, Reply)
    requires op.Rotate?
  {
    if !GraceOk(op.grace) then (w, InvalidGrace)
    else if !AnyRevocable(w.db, op.tenant, op.prefix) then (w, KeyNotFound)
    else
      (World(Revoke(w.db, op.tenant, op.prefix, w.now, op.grace)
             + [MadeRow(op.key, op.tenant, w.now, None, op.grace)],
             if op.wired then Without(w.store, op.prefix) else w.store,
             w.now),
       KeyMade(op.key))
  }

  function Step(ttl: real, w: World, op: Op): (World, Reply) {
    match op
    case Tick(elapsed) => (w.(now := w.now + elapsed), Done)
    case Authenticate(header) => AuthenticateStep(ttl, w, header)
    case Invalidate(prefix) => (w.(store := Without(w.store, prefix)), Done)
    case Create(tenant, grace, expiresAt, key) =>
      if !GraceOk(grace) then (w, InvalidGrace)
      else (w.(db := w.db + [MadeRow(key, tenant, w.now, expiresAt, grace)]), KeyMade(key))
    case Rotate(_, _, _, _, _) => RotateStep(w, op)
  }

  function Run(ttl: real, w: World, ops: seq<Op>): World
    decreases |ops|
  {
    if ops == [] then w else Run(ttl, Step(ttl, w, ops[0]).0, ops[1..])
  }

  predicate AllPossible(ops: seq<Op>) { forall i | 0 <= i < |ops| :: Possible(ops[i]) }

  // ----- the services ------------------------------------------------------

  /** The rows every process shares. */
  class Database {
    var rows: seq<Row>

    constructor ()
      ensures rows == []
    {
      rows := [];
    }
  }

  class TtlCache {
    const ttl: real
    var store: seq<Entry>

    constructor (ttl: real)
      ensures this.ttl == ttl && store == []
    {
      this.ttl, store := ttl, [];
    }

    method Get(prefix: string, now: real) returns (rows: Option<seq<Row>>)
      modifies this
      ensures store == AfterGet(old(store), prefix, now)
      ensures rows == var e := Live(old(store), prefix, now); if e.Some? then Some(e.value.rows) else None
    {
      var entry := Lookup(store, prefix);
      if entry.None? {
        NothingToRemove(store, prefix);
        return None;
      }
      if now > entry.value.expiresAt {
        store := Without(store, prefix);
        return None;
      }
      rows := Some(entry.value.rows);
    }

    method Put(prefix: string, rows: seq<Row>, now: real)
      modifies this
      ensures store == AfterPut(old(store), Entry(prefix, rows, now + ttl))
    {
      if |store| >= MAX_SIZE && Lookup(store, prefix).None? {
        store := store[1..];
      }
      store := Assign(store, Entry(prefix, rows, now + ttl));
    }

    method Remove(prefix: string)
      modifies this
      ensures store == Without(old(store), prefix)
    {
      store := Without(store, prefix);
    }
  }

  class AuthService {
    const db: Database
    const cache: TtlCache

    constructor (db: Database, ttl: real)
      ensures this.db == db && cache.ttl == ttl && cache.store == [] && fresh(cache)
    {
      this.db := db;
      cache := new TtlCache(ttl);
    }

    ghost function View(now: real): World
      reads this, db, cache
    {
      World(db.rows, cache.store, now)
    }

    method GetCandidates(prefix: string, now: real) returns (rows: seq<Row>)
      modifies cache
      ensures var hit := Live(old(cache.store), prefix, now);
              var store := AfterGet(old(cache.store), prefix, now);
              && rows == (if hit.Some? then hit.value.rows else Candidates(db.rows, prefix))
              && cache.store == (if hit.Some? then store else AfterPut(store, Entry(prefix, rows, now + cache.ttl)))
    {
      hide Live, AfterGet, AfterPut, Candidates;
      var cached := cache.Get(prefix, now);
      if cached.Some? { return cached.value; }
      rows := Candidates(db.rows, prefix);
      cache.Put(prefix, rows, now);
    }

    method Authenticate(header: string, now: real) returns (reply: Reply)
      modifies cache
      ensures (View(now), reply) == Step(cache.ttl, old(View(now)), Op.Authenticate(header))
    {
      hide Live, AfterGet, AfterPut, Candidates, Presented, ExtractPrefix;
      var token := Presented(header);
      if token.None? { return Rejected(MissingToken); }
      var prefix := ExtractPrefix(token.value);
      if prefix.None? { return Rejected(InvalidToken); }
      var candidates := GetCandidates(prefix.value, now);
      var matched: Option<Row>, i := None, 0;
      while i < |candidates|
        invariant 0 <= i <= |candidates| && matched == None
        invariant FindRow(candidates, token.value) == FindRow(candidates[i..], token.value)
      {
        if candidates[i].token == token.value {
          matched := Some(candidates[i]);
          break;
        }
        assert candidates[i..][1..] == candidates[i + 1..];
        i := i + 1;
      }
      assert matched == FindRow(candidates, token.value);
      if matched.None? { return Rejected(InvalidToken); }
      var row := matched.value;
      if row.expiresAt.Some? && now > row.expiresAt.value { return Rejected(ExpiredToken); }
      if row.revokedAt.Some? && now > row.revokedAt.value + row.grace as real { return Rejected(RevokedToken); }
      reply := Accepted(row.tenant, row.id);
    }

    method InvalidateCacheForPrefix(prefix: string)
      modifies cache
      ensures forall now :: View(now) == Step(cache.ttl, old(View(now)), Op.Invalidate(prefix)).0
    {
      cache.Remove(prefix);
    }
  }

  class KeyManagement {
    const db: Database
    const auth: AuthService?

    constructor (db: Database, auth: AuthService?)
      ensures this.db == db && this.auth == auth
    {
      this.db, this.auth := db, auth;
    }

    /** `rotate_key`, seen from a service that shares the table: the one the
        manager notifies, or any other. */
    method RotateKey(tenant: string, oldPrefix: string, grace: int, key: NewKey, now: real,
                     ghost seen: AuthService) returns (reply: Reply)
      requires seen.db == db && (auth == null || auth.db == db)
      requires auth == seen || (auth != null ==> auth.cache != seen.cache)
      modifies db, (if auth == null then {} else {auth.cache})
      ensures (seen.View(now), reply)
              == Step(seen.cache.ttl, old(seen.View(now)), Rotate(tenant, oldPrefix, grace, key, auth == seen))
    {
      hide Revoke, Without, AnyRevocable;
      if grace < GRACE_MIN || grace > GRACE_MAX { return InvalidGrace; }
      if !AnyRevocable(db.rows, tenant, oldPrefix) { return KeyNotFound; }
      db.rows := Revoke(db.rows, tenant, oldPrefix, now, grace);
      db.rows := db.rows + [MadeRow(key, tenant, now, None, grace)];
      if auth != null { auth.InvalidateCacheForPrefix(oldPrefix); }
      reply := KeyMade(key);
    }

    method CreateKey(tenant: string, grace: int, expiresAt: Option<real>, key: NewKey, now: real,
                     ghost seen: AuthService) returns (reply: Reply)
      requires seen.db == db
      modifies db
      ensures (seen.View(now), reply)
              == Step(seen.cache.ttl, old(seen.View(now)), Create(tenant, grace, expiresAt, key))
    {
      if grace < GRACE_MIN || grace > GRACE_MAX { return InvalidGrace; }
      db.rows := db.rows + [MadeRow(key, tenant, now, expiresAt, grace)];
      reply := KeyMade(key);
    }
  }

  // ----- facts about rows and entries --------------------------------------

  lemma {:induction false} NothingToRemove(store: seq<Entry>, prefix: string)
    requires forall i | 0 <= i < |store| :: store[i].prefix != prefix
    ensures Without(store, prefix) == store
  {
    if store != [] {
      NothingToRemove(store[1..], prefix);
    }
  }

  /** The prefix column holds the prefix of the token. */
  predicate Keyed(rows: seq<Row>) {
    forall i | 0 <= i < |rows| :: ExtractPrefix(rows[i].token) == Some(rows[i].prefix)
  }

  lemma {:induction false} FindCandidates(rows: seq<Row>, prefix: string, token: string)
    requires Keyed(rows) && ExtractPrefix(token) == Some(prefix)
    ensures FindRow(Candidates(rows, prefix), token) == FindRow(rows, token)
  {
    hide ExtractPrefix;
    if rows != [] {
      FindCandidates(rows[1..], prefix, token);
      var rest := Candidates(rows[1..], prefix);
      assert [] + rest == rest && ([rows[0]] + rest)[1..] == rest;
    }
  }

  lemma {:induction false} FindRevoke(rows: seq<Row>, tenant: string, prefix: string, now: real, grace: int, token: string)
    ensures var r := FindRow(rows, token);
            FindRow(Revoke(rows, tenant, prefix, now, grace), token)
            == if r.None? then None else Some(RevokeOne(r.value, tenant, prefix, now, grace))
  {
    if rows != [] {
      FindRevoke(rows[1..], tenant, prefix, now, grace, token);
    }
  }

  lemma {:induction false} FindAppend(rows: seq<Row>, row: Row, token: string)
    ensures FindRow(rows + [row], token)
            == if FindRow(rows, token).Some? then FindRow(rows, token) else if row.token == token then Some(row) else None
  {
    if rows == [] {
      assert rows + [row] == [row];
    } else {
      FindAppend(rows[1..], row, token);
      assert (rows + [row])[1..] == rows[1..] + [row];
    }
  }

  lemma {:induction false} FindIn(rows: seq<Row>, token: string)
    ensures var r := FindRow(rows, token); r.Some? ==> r.value in rows && r.value.token == token
  {
    if rows != [] {
      FindIn(rows[1..], token);
    }
  }

  lemma {:induction false} RevokeAt(rows: seq<Row>, tenant: string, prefix: string, now: real, grace: int, i: nat)
    requires i < |rows|
    ensures Revoke(rows, tenant, prefix, now, grace)[i] == RevokeOne(rows[i], tenant, prefix, now, grace)
  {
    if i > 0 {
      RevokeAt(rows[1..], tenant, prefix, now, grace, i - 1);
    }
  }

  lemma IndexAfter(prefix: string, rest: string)
    requires '_' !in prefix
    ensures Index(prefix + ("_" + rest), '_') == |prefix|
  {
    var s := prefix + ("_" + rest);
    assert s[|prefix|] == '_';
  }

  lemma MadeRowIsKeyed(key: NewKey)
    requires Generated(key)
    ensures ExtractPrefix(key.Token()) == Some(key.prefix)
  {
    IndexAfter(key.prefix, key.random);
    assert key.Token()[..|key.prefix|] == key.prefix;
  }

  predicate Distinct(store: seq<Entry>) {
    forall i, j | 0 <= i < j < |store| :: store[i].prefix != store[j].prefix
  }

  lemma {:induction false} WithoutKeepsDistinct(store: seq<Entry>, prefix: string)
    requires Distinct(store)
    ensures Distinct(Without(store, prefix))
  {
    if store != [] {
      WithoutKeepsDistinct(store[1..], prefix);
    }
  }

  lemma {:induction false} AssignFacts(store: seq<Entry>, e: Entry)
    requires Distinct(store)
    ensures Distinct(Assign(store, e))
    ensures forall x | x in Assign(store, e) :: x == e || (x in store && x.prefix != e.prefix)
    ensures forall x | x in store && x.prefix != e.prefix :: x in Assign(store, e)
    ensures e in Assign(store, e)
  {
    if store != [] && store[0].prefix != e.prefix {
      AssignFacts(store[1..], e);
    }
  }

  lemma {:induction false} LookupFinds(store: seq<Entry>, e: Entry)
    requires Distinct(store) && e in store
    ensures Lookup(store, e.prefix) == Some(e)
  {
    if store[0] != e {
      assert e in store[1..];
      LookupFinds(store[1..], e);
    }
  }

  /** What an entry may lag behind the table since it was filled at `filled`:
      later rows are missing, later revocations are not seen. */
  predicate Lags(cached: Option<Row>, actual: Option<Row>, filled: real) {
    if cached.None? then actual.Some? ==> actual.value.createdAt >= filled
    else
      && actual.Some?
      && (cached == actual || Unrevoked(cached.value, actual.value, filled))
  }

  predicate Unrevoked(cached: Row, actual: Row, filled: real) {
    && cached == actual.(revokedAt := None, grace := cached.grace)
    && actual.revokedAt.Some? && actual.revokedAt.value >= filled
  }

  ghost predicate EntryOk(ttl: real, e: Entry, db: seq<Row>, now: real) {
    && e.expiresAt - ttl <= now
    && forall token | ExtractPrefix(token) == Some(e.prefix) ::
         Lags(FindRow(e.rows, token), FindRow(db, token), e.expiresAt - ttl)
  }

  /** Holds at every point of every run. */
  ghost predicate Valid(ttl: real, w: World) {
    && Keyed(w.db)
    && Distinct(w.store)
    && |w.store| <= MAX_SIZE
    && forall e | e in w.store :: EntryOk(ttl, e, w.db, w.now)
  }

  lemma DbGrows(ttl: real, w: World, row: Row)
    requires Valid(ttl, w) && ExtractPrefix(row.token) == Some(row.prefix) && row.createdAt == w.now
    ensures Valid(ttl, w.(db := w.db + [row]))
  {
    hide ExtractPrefix, FindRow;
    forall e | e in w.store ensures EntryOk(ttl, e, w.db + [row], w.now) {
      forall token | ExtractPrefix(token) == Some(e.prefix)
        ensures Lags(FindRow(e.rows, token), FindRow(w.db + [row], token), e.expiresAt - ttl)
      {
        FindAppend(w.db, row, token);
        assert Lags(FindRow(e.rows, token), FindRow(w.db, token), e.expiresAt - ttl);
      }
    }
  }

  lemma RevokeKeepsValid(ttl: real, w: World, tenant: string, prefix: string, grace: int)
    requires Valid(ttl, w)
    ensures Valid(ttl, w.(db := Revoke(w.db, tenant, prefix, w.now, grace)))
  {
    hide ExtractPrefix, FindRow, Revoke;
    var db := Revoke(w.db, tenant, prefix, w.now, grace);
    forall i | 0 <= i < |db| ensures ExtractPrefix(db[i].token) == Some(db[i].prefix) {
      RevokeAt(w.db, tenant, prefix, w.now, grace, i);
    }
    forall e | e in w.store ensures EntryOk(ttl, e, db, w.now) {
      forall token | ExtractPrefix(token) == Some(e.prefix)
        ensures Lags(FindRow(e.rows, token), FindRow(db, token), e.expiresAt - ttl)
      {
        FindRevoke(w.db, tenant, prefix, w.now, grace, token);
        assert Lags(FindRow(e.rows, token), FindRow(w.db, token), e.expiresAt - ttl);
      }
    }
  }

  lemma FewerEntriesValid(ttl: real, w: World, prefix: string)
    requires Valid(ttl, w)
    ensures Valid(ttl, w.(store := Without(w.store, prefix)))
  {
    hide EntryOk;
    WithoutKeepsDistinct(w.store, prefix);
    WithoutIsShorter(w.store, prefix);
  }

  lemma {:induction false} WithoutIsShorter(store: seq<Entry>, prefix: string)
    ensures |Without(store, prefix)| <= |store|
  {
    if store != [] {
      WithoutIsShorter(store[1..], prefix);
    }
  }

  lemma {:induction false} AssignLength(store: seq<Entry>, e: Entry)
    ensures |Assign(store, e)| == |store| + (if Lookup(store, e.prefix).None? then 1 else 0)
  {
    if store != [] && store[0].prefix != e.prefix {
      AssignLength(store[1..], e);
    }
  }

  lemma FilledEntryOk(ttl: real, db: seq<Row>, prefix: string, now: real)
    requires Keyed(db)
    ensures EntryOk(ttl, Entry(prefix, Candidates(db, prefix), now + ttl), db, now)
  {
    hide ExtractPrefix, FindRow, Candidates;
    var rows := Candidates(db, prefix);
    forall token | ExtractPrefix(token) == Some(prefix)
      ensures Lags(FindRow(rows, token), FindRow(db, token), now + ttl - ttl)
    {
      FindCandidates(db, prefix, token);
    }
  }

  lemma PutKeepsValid(ttl: real, w: World, prefix: string)
    requires Valid(ttl, w)
    ensures Valid(ttl, w.(store := AfterPut(w.store, Entry(prefix, Candidates(w.db, prefix), w.now + ttl))))
  {
    hide EntryOk, Candidates, Assign;
    var e := Entry(prefix, Candidates(w.db, prefix), w.now + ttl);
    var kept := if |w.store| >= MAX_SIZE && Lookup(w.store, e.prefix).None? then w.store[1..] else w.store;
    FilledEntryOk(ttl, w.db, prefix, w.now);
    AssignFacts(kept, e);
    AssignLength(kept, e);
  }

  /** Every step keeps the cache a lagging copy of the table. */
  lemma StepKeepsValid(ttl: real, w: World, op: Op)
    requires Valid(ttl, w) && Possible(op)
    ensures Valid(ttl, Step(ttl, w, op).0)
    ensures w.now <= Step(ttl, w, op).0.now
  {
    hide ExtractPrefix, Revoke, AfterPut, Without, Candidates, Keyed, Distinct, AnyRevocable, Presented;
    match op
    case Tick(elapsed) =>
      hide Lags, FindRow;
    case Invalidate(prefix) =>
      FewerEntriesValid(ttl, w, prefix);
    case Authenticate(header) =>
      hide EntryOk;
      var token := Presented(header);
      if token.Some? && ExtractPrefix(token.value).Some? {
        var prefix := ExtractPrefix(token.value).value;
        FewerEntriesValid(ttl, w, prefix);
        PutKeepsValid(ttl, w.(store := Without(w.store, prefix)), prefix);
      }
    case Create(tenant, grace, expiresAt, key) =>
      hide EntryOk;
      MadeRowIsKeyed(key);
      DbGrows(ttl, w, MadeRow(key, tenant, w.now, expiresAt, grace));
    case Rotate(tenant, prefix, grace, key, wired) =>
      hide EntryOk;
      MadeRowIsKeyed(key);
      RevokeKeepsValid(ttl, w, tenant, prefix, grace);
      var w1 := w.(db := Revoke(w.db, tenant, prefix, w.now, grace));
      DbGrows(ttl, w1, MadeRow(key, tenant, w.now, None, grace));
      FewerEntriesValid(ttl, w1.(db := w1.db + [MadeRow(key, tenant, w.now, None, grace)]), prefix);
  }

  lemma {:induction false} RunKeepsValid(ttl: real, w: World, ops: seq<Op>)
    requires Valid(ttl, w) && AllPossible(ops)
    ensures Valid(ttl, Run(ttl, w, ops))
    ensures w.now <= Run(ttl, w, ops).now
    decreases |ops|
  {
    hide Step, Valid;
    if ops != [] {
      StepKeepsValid(ttl, w, ops[0]);
      RunKeepsValid(ttl, Step(ttl, w, ops[0]).0, ops[1..]);
    }
  }

  // ----- what authentication sees ------------------------------------------

  /** The row the token leads to, from a live entry or else the table. */
  function Seen(w: World, token: string): Option<Row> {
    var prefix := ExtractPrefix(token);
    if prefix.None? then None
    else
      var hit := Live(w.store, prefix.value, w.now);
      if hit.Some? then FindRow(hit.value.rows, token) else FindRow(w.db, token)
  }

  /** The token is accepted in a bearer header. */
  predicate Accepts(w: World, token: string) { Judge(Seen(w, token), w.now).Accepted? }

  /** Whatever the cache holds, a request is judged by the row its token is seen
      to lead to. */
  lemma AuthenticateJudges(ttl: real, w: World, header: string)
    requires Keyed(w.db)
    ensures Step(ttl, w, Authenticate(header)).1
            == if Presented(header).None? then Rejected(MissingToken)
               else Judge(Seen(w, Presented(header).value), w.now)
  {
    hide ExtractPrefix, Presented, Live, AfterGet, AfterPut, Keyed, FindRow, Candidates;
    var token := Presented(header);
    if token.Some? && ExtractPrefix(token.value).Some? {
      FindCandidates(w.db, ExtractPrefix(token.value).value, token.value);
    }
  }

  /** A live entry as the invariant describes it. */
  lemma SeenFacts(ttl: real, w: World, token: string)
    requires Valid(ttl, w) && FindRow(w.db, token).Some?
    ensures ExtractPrefix(token) == Some(FindRow(w.db, token).value.prefix)
    ensures var hit := Live(w.store, FindRow(w.db, token).value.prefix, w.now);
            if hit.None? then Seen(w, token) == FindRow(w.db, token)
            else
              && hit.value in w.store && hit.value.prefix == FindRow(w.db, token).value.prefix
              && w.now - ttl <= hit.value.expiresAt - ttl <= w.now
              && Seen(w, token) == FindRow(hit.value.rows, token)
              && Lags(Seen(w, token), FindRow(w.db, token), hit.value.expiresAt - ttl)
  {
    hide ExtractPrefix, Lags, Distinct;
    FindIn(w.db, token);
    var row := FindRow(w.db, token).value;
    var i :| 0 <= i < |w.db| && w.db[i] == row;
    assert ExtractPrefix(token) == Some(row.prefix);
    var hit := Live(w.store, row.prefix, w.now);
    if hit.Some? {
      assert EntryOk(ttl, hit.value, w.db, w.now);
    }
  }

  // ----- rotation over whole runs ------------------------------------------

  /** A fresh table user: nothing cached yet. */
  ghost predicate Initial(w: World) { Keyed(w.db) && w.store == [] }

  lemma InitialIsValid(ttl: real, w: World)
    requires Initial(w)
    ensures Valid(ttl, w)
  {
  }

  /** A revoked row stays as it is. */
  lemma {:induction false} RevokedStays(ttl: real, w: World, ops: seq<Op>, token: string)
    requires FindRow(w.db, token).Some? && FindRow(w.db, token).value.revokedAt.Some?
    ensures FindRow(Run(ttl, w, ops).db, token) == FindRow(w.db, token)
    decreases |ops|
  {
    if ops != [] {
      StepKeepsRevoked(ttl, w, ops[0], token);
      hide Step;
      RevokedStays(ttl, Step(ttl, w, ops[0]).0, ops[1..], token);
    }
  }

  lemma StepKeepsRevoked(ttl: real, w: World, op: Op, token: string)
    requires FindRow(w.db, token).Some? && FindRow(w.db, token).value.revokedAt.Some?
    ensures FindRow(Step(ttl, w, op).0.db, token) == FindRow(w.db, token)
  {
    hide FindRow, Presented, ExtractPrefix, Candidates, Revoke, AnyRevocable, AfterPut, AfterGet, Live, Without;
    match op
    case Create(tenant, grace, expiresAt, key) =>
      FindAppend(w.db, MadeRow(key, tenant, w.now, expiresAt, grace), token);
    case Rotate(tenant, prefix, grace, key, wired) =>
      FindRevoke(w.db, tenant, prefix, w.now, grace, token);
      FindAppend(Revoke(w.db, tenant, prefix, w.now, grace), MadeRow(key, tenant, w.now, None, grace), token);
    case _ =>
  }

  /** The token's row is one this rotation revokes, and the grace is legal. */
  ghost predicate Rotates(w: World, op: Op, token: string) {
    && op.Rotate? && Possible(op) && GraceOk(op.grace)
    && FindRow(w.db, token).Some? && Revocable(FindRow(w.db, token).value, op.tenant, op.prefix)
  }

  function RotatedRow(w: World, op: Op, token: string): Row
    requires op.Rotate? && FindRow(w.db, token).Some?
  {
    FindRow(w.db, token).value.(revokedAt := Some(w.now), grace := op.grace)
  }

  /** A rotation succeeds, and the token's row is revoked at that moment. */
  lemma RotationRevokes(ttl: real, w: World, op: Op, token: string)
    requires Rotates(w, op, token)
    ensures Step(ttl, w, op).1 == KeyMade(op.key)
    ensures FindRow(Step(ttl, w, op).0.db, token) == Some(RotatedRow(w, op, token))
    ensures Step(ttl, w, op).0.store == if op.wired then Without(w.store, op.prefix) else w.store
    ensures Step(ttl, w, op).0.now == w.now
  {
    hide FindRow, Revoke, Without;
    FindIn(w.db, token);
    var i :| 0 <= i < |w.db| && w.db[i] == FindRow(w.db, token).value;
    assert AnyRevocable(w.db, op.tenant, op.prefix);
    FindRevoke(w.db, op.tenant, op.prefix, w.now, op.grace, token);
    FindAppend(Revoke(w.db, op.tenant, op.prefix, w.now, op.grace),
               MadeRow(op.key, op.tenant, w.now, None, op.grace), token);
  }

  function Max(a: real, b: real): real { if a < b then b else a }

  /** In every run, a key rotated at T with grace G is not accepted after
      T + max(TTL, G), whatever happens in between. */
  lemma RotatedKeyDies(ttl: real, w0: World, before: seq<Op>, rotate: Op, after: seq<Op>, token: string)
    requires Initial(w0) && AllPossible(before) && AllPossible(after)
    requires Rotates(Run(ttl, w0, before), rotate, token)
    requires var w := Run(ttl, w0, before);
             Run(ttl, Step(ttl, w, rotate).0, after).now > w.now + Max(ttl, rotate.grace as real)
    ensures !Accepts(Run(ttl, Step(ttl, Run(ttl, w0, before), rotate).0, after), token)
  {
    hide FindRow, Valid, Step, Run, ExtractPrefix, Live, Initial, Seen;
    InitialIsValid(ttl, w0);
    RunKeepsValid(ttl, w0, before);
    var w := Run(ttl, w0, before);
    var w1 := Step(ttl, w, rotate).0;
    RotationRevokes(ttl, w, rotate, token);
    StepKeepsValid(ttl, w, rotate);
    RevokedStays(ttl, w1, after, token);
    RunKeepsValid(ttl, w1, after);
    SeenFacts(ttl, Run(ttl, w1, after), token);
  }

  // ----- when the grace period ends on time --------------------------------

  /** Nothing that follows makes the token accepted after the time. */
  ghost predicate DiesBy(ttl: real, w: World, token: string, time: real) {
    forall ops | AllPossible(ops) && Run(ttl, w, ops).now > time :: !Accepts(Run(ttl, w, ops), token)
  }

  /** An entry that will pass the token after the time: it has the row
      unrevoked, and both outlive the time. */
  predicate Outlives(e: Entry, token: string, time: real) {
    var row := FindRow(e.rows, token);
    && e.expiresAt > time
    && row.Some? && row.value.revokedAt.None?
    && (row.value.expiresAt.Some? ==> row.value.expiresAt.value > time)
  }

  predicate AnyOutlives(store: seq<Entry>, prefix: string, token: string, time: real) {
    var e := Lookup(store, prefix);
    e.Some? && Outlives(e.value, token, time)
  }

  /** No entry for the token's prefix outlives the time. */
  ghost predicate Calm(w: World, token: string, time: real) {
    forall e | e in w.store && ExtractPrefix(token) == Some(e.prefix) :: !Outlives(e, token, time)
  }

  lemma StepKeepsCalm(ttl: real, w: World, op: Op, token: string, time: real)
    requires Keyed(w.db) && Calm(w, token, time)
    requires FindRow(w.db, token).Some? && FindRow(w.db, token).value.revokedAt.Some?
    ensures Calm(Step(ttl, w, op).0, token, time)
  {
    hide FindRow, Presented, ExtractPrefix, Candidates, Revoke, AnyRevocable, Live, Keyed, Assign;
    match op
    case Authenticate(header) =>
      var presented := Presented(header);
      if presented.Some? && ExtractPrefix(presented.value).Some? {
        var prefix := ExtractPrefix(presented.value).value;
        if ExtractPrefix(token) == Some(prefix) {
          FindCandidates(w.db, prefix, token);
        }
      }
    case _ =>
  }

  lemma {:induction false} RunKeepsCalm(ttl: real, w: World, ops: seq<Op>, token: string, time: real)
    requires Valid(ttl, w) && Calm(w, token, time) && AllPossible(ops)
    requires FindRow(w.db, token).Some? && FindRow(w.db, token).value.revokedAt.Some?
    ensures Calm(Run(ttl, w, ops), token, time)
    decreases |ops|
  {
    if ops != [] {
      hide FindRow, Calm, EntryOk;
      StepKeepsCalm(ttl, w, ops[0], token, time);
      StepKeepsRevoked(ttl, w, ops[0], token);
      StepKeepsValid(ttl, w, ops[0]);
      hide Valid, Step;
      RunKeepsCalm(ttl, Step(ttl, w, ops[0]).0, ops[1..], token, time);
    }
  }

  /** With no such entry the grace period ends on time. */
  lemma CalmDies(ttl: real, w: World, token: string, ops: seq<Op>)
    requires Valid(ttl, w) && AllPossible(ops)
    requires FindRow(w.db, token).Some? && FindRow(w.db, token).value.revokedAt.Some?
    requires var row := FindRow(w.db, token).value;
             && Calm(w, token, row.revokedAt.value + row.grace as real)
             && Run(ttl, w, ops).now > row.revokedAt.value + row.grace as real
    ensures !Accepts(Run(ttl, w, ops), token)
  {
    var row := FindRow(w.db, token).value;
    hide FindRow, Valid, Step, Run, ExtractPrefix, Live, Seen;
    RunKeepsCalm(ttl, w, ops, token, row.revokedAt.value + row.grace as real);
    RevokedStays(ttl, w, ops, token);
    RunKeepsValid(ttl, w, ops);
    SeenFacts(ttl, Run(ttl, w, ops), token);
  }

  /** After a rotation at T with grace G, the old key is dead after T + G in
      every continuation exactly when no cached entry of its prefix, as the
      rotation leaves the cache, still shows it unrevoked past T + G. */
  lemma GraceEndsOnTimeIff(ttl: real, w: World, rotate: Op, token: string)
    requires Valid(ttl, w) && Rotates(w, rotate, token)
    ensures var w1, time := Step(ttl, w, rotate).0, w.now + rotate.grace as real;
            DiesBy(ttl, w1, token, time) <==> !AnyOutlives(w1.store, rotate.prefix, token, time)
  {
    hide FindRow, ExtractPrefix, Step, AnyOutlives, DiesBy, Valid, Rotates;
    AfterRotation(ttl, w, rotate, token);
    StaleEntryDecides(ttl, Step(ttl, w, rotate).0, rotate.prefix, token);
  }

  lemma StaleEntryDecides(ttl: real, w: World, prefix: string, token: string)
    requires Valid(ttl, w) && ExtractPrefix(token) == Some(prefix)
    requires var row := FindRow(w.db, token);
             row.Some? && row.value.revokedAt == Some(w.now) && row.value.grace >= 0
    ensures var time := w.now + FindRow(w.db, token).value.grace as real;
            DiesBy(ttl, w, token, time) <==> !AnyOutlives(w.store, prefix, token, time)
  {
    hide FindRow, ExtractPrefix, AnyOutlives, DiesBy, Valid;
    var time := w.now + FindRow(w.db, token).value.grace as real;
    if AnyOutlives(w.store, prefix, token, time) {
      StaleEntryAccepts(ttl, w, prefix, token, time);
    } else {
      NoStaleEntryDies(ttl, w, prefix, token);
    }
  }

  /** The world a rotation leaves, as far as the old key is concerned. */
  lemma AfterRotation(ttl: real, w: World, rotate: Op, token: string)
    requires Valid(ttl, w) && Rotates(w, rotate, token)
    ensures rotate.Rotate? && ExtractPrefix(token) == Some(rotate.prefix) && rotate.grace >= 1
    ensures var w1 := Step(ttl, w, rotate).0; var row := FindRow(w1.db, token);
            && Valid(ttl, w1) && w1.now == w.now
            && row.Some? && row.value.revokedAt == Some(w.now) && row.value.grace == rotate.grace
  {
    hide FindRow, ExtractPrefix, Step, Valid, Seen, Live;
    RotationRevokes(ttl, w, rotate, token);
    StepKeepsValid(ttl, w, rotate);
    SeenFacts(ttl, w, token);
  }

  lemma NoStaleEntryDies(ttl: real, w: World, prefix: string, token: string)
    requires Valid(ttl, w) && ExtractPrefix(token) == Some(prefix)
    requires FindRow(w.db, token).Some? && FindRow(w.db, token).value.revokedAt.Some?
    requires var row := FindRow(w.db, token).value;
             !AnyOutlives(w.store, prefix, token, row.revokedAt.value + row.grace as real)
    ensures var row := FindRow(w.db, token).value;
            DiesBy(ttl, w, token, row.revokedAt.value + row.grace as real)
  {
    var row := FindRow(w.db, token).value;
    var time := row.revokedAt.value + row.grace as real;
    hide FindRow, ExtractPrefix, Run, Accepts, EntryOk, Outlives, Keyed;
    forall e | e in w.store && ExtractPrefix(token) == Some(e.prefix) ensures !Outlives(e, token, time) {
      LookupFinds(w.store, e);
    }
    forall ops | AllPossible(ops) && Run(ttl, w, ops).now > time ensures !Accepts(Run(ttl, w, ops), token) {
      hide Valid;
      CalmDies(ttl, w, token, ops);
    }
  }

  /** Waiting for the last moment of the stale entry is a counterexample. */
  lemma StaleEntryAccepts(ttl: real, w: World, prefix: string, token: string, time: real)
    requires AnyOutlives(w.store, prefix, token, time) && ExtractPrefix(token) == Some(prefix) && w.now <= time
    ensures !DiesBy(ttl, w, token, time)
  {
    hide ExtractPrefix, FindRow;
    var e := Lookup(w.store, prefix).value;
    var row := FindRow(e.rows, token).value;
    var last := if row.expiresAt.Some? && row.expiresAt.value < e.expiresAt then row.expiresAt.value else e.expiresAt;
    var ops := [Tick(last - w.now)];
    var later := w.(now := w.now + (last - w.now));
    assert Run(ttl, later, []) == later;
    assert ops[1..] == [];
    assert Run(ttl, w, ops) == later;
    assert AllPossible(ops);
    assert Accepts(later, token);
  }

  /** A service that is notified, or whose entries live no longer than the
      grace period, ends every grace period on time. */
  lemma GraceEndsOnTime(ttl: real, w: World, rotate: Op, token: string)
    requires Valid(ttl, w) && Rotates(w, rotate, token)
    requires rotate.wired || ttl <= rotate.grace as real
    ensures DiesBy(ttl, Step(ttl, w, rotate).0, token, w.now + rotate.grace as real)
  {
    hide ExtractPrefix, FindRow, Step, DiesBy, Distinct, Keyed;
    RotationRevokes(ttl, w, rotate, token);
    GraceEndsOnTimeIff(ttl, w, rotate, token);
    var e := Lookup(Step(ttl, w, rotate).0.store, rotate.prefix);
    if e.Some? {
      assert EntryOk(ttl, e.value, w.db, w.now);
    }
  }

  // ----- the grace period and the new key ----------------------------------

  /** In every continuation up to the time, the unexpired token is accepted. */
  ghost predicate HonouredUntil(ttl: real, w: World, token: string, time: real) {
    forall ops | AllPossible(ops) && Run(ttl, w, ops).now <= time
                 && FindRow(w.db, token).Some? && !Expired(FindRow(w.db, token).value, Run(ttl, w, ops).now)
      :: Accepts(Run(ttl, w, ops), token)
  }

  /** A live entry of the prefix was filled before the token's row was there. */
  predicate Hidden(w: World, token: string) {
    var prefix := ExtractPrefix(token);
    && prefix.Some?
    && var e := Live(w.store, prefix.value, w.now);
       e.Some? && FindRow(e.value.rows, token).None?
  }

  /** No entry of the token's prefix that is live at or after `now` misses it. */
  ghost predicate InSight(w: World, token: string) {
    forall e | e in w.store && ExtractPrefix(token) == Some(e.prefix) && w.now <= e.expiresAt ::
      FindRow(e.rows, token).Some?
  }

  lemma StepKeepsInSight(ttl: real, w: World, op: Op, token: string)
    requires Keyed(w.db) && InSight(w, token) && Possible(op) && FindRow(w.db, token).Some?
    ensures InSight(Step(ttl, w, op).0, token)
    ensures FindRow(Step(ttl, w, op).0.db, token).Some?
  {
    hide FindRow, Presented, ExtractPrefix, Candidates, Revoke, AnyRevocable, Live, Keyed, Assign;
    match op
    case Authenticate(header) =>
      var presented := Presented(header);
      if presented.Some? && ExtractPrefix(presented.value).Some? {
        var prefix := ExtractPrefix(presented.value).value;
        if ExtractPrefix(token) == Some(prefix) {
          FindCandidates(w.db, prefix, token);
        }
      }
    case Create(tenant, grace, expiresAt, key) =>
      FindAppend(w.db, MadeRow(key, tenant, w.now, expiresAt, grace), token);
    case Rotate(tenant, prefix, grace, key, wired) =>
      FindRevoke(w.db, tenant, prefix, w.now, grace, token);
      FindAppend(Revoke(w.db, tenant, prefix, w.now, grace), MadeRow(key, tenant, w.now, None, grace), token);
    case _ =>
  }

  lemma {:induction false} RunKeepsInSight(ttl: real, w: World, ops: seq<Op>, token: string)
    requires Valid(ttl, w) && InSight(w, token) && AllPossible(ops) && FindRow(w.db, token).Some?
    ensures InSight(Run(ttl, w, ops), token) && FindRow(Run(ttl, w, ops).db, token).Some?
    decreases |ops|
  {
    if ops != [] {
      hide FindRow, InSight, EntryOk;
      StepKeepsInSight(ttl, w, ops[0], token);
      StepKeepsValid(ttl, w, ops[0]);
      hide Valid, Step;
      RunKeepsInSight(ttl, Step(ttl, w, ops[0]).0, ops[1..], token);
    }
  }

  lemma NotHiddenIsInSight(ttl: real, w: World, token: string)
    requires Valid(ttl, w) && !Hidden(w, token)
    ensures InSight(w, token)
  {
    hide ExtractPrefix, FindRow, EntryOk, Keyed;
    forall e | e in w.store && ExtractPrefix(token) == Some(e.prefix) && w.now <= e.expiresAt
      ensures FindRow(e.rows, token).Some?
    {
      LookupFinds(w.store, e);
    }
  }

  /** A token in sight is accepted while its row is neither expired nor past its
      grace. */
  lemma InSightIsAccepted(ttl: real, w: World, token: string)
    requires Valid(ttl, w) && InSight(w, token) && FindRow(w.db, token).Some?
    requires !Expired(FindRow(w.db, token).value, w.now) && !PastGrace(FindRow(w.db, token).value, w.now)
    ensures Accepts(w, token)
  {
    hide ExtractPrefix, FindRow, Valid, Seen;
    SeenFacts(ttl, w, token);
  }

  /** After a rotation at T with grace G, the old key is honoured throughout
      [T, T+G] in every continuation exactly when no live entry hides it then,
      or it has expired. */
  lemma GraceIsHonouredIff(ttl: real, w: World, rotate: Op, token: string)
    requires Valid(ttl, w) && Rotates(w, rotate, token)
    ensures var w1 := Step(ttl, w, rotate).0;
            HonouredUntil(ttl, w1, token, w.now + rotate.grace as real)
            <==> (!Hidden(w1, token) || Expired(FindRow(w.db, token).value, w.now))
  {
    var w1, time := Step(ttl, w, rotate).0, w.now + rotate.grace as real;
    RotationRevokes(ttl, w, rotate, token);
    StepKeepsValid(ttl, w, rotate);
    hide FindRow, ExtractPrefix, Step, EntryOk, Live;
    if Hidden(w1, token) {
      assert Run(ttl, w1, []) == w1;
      assert !Accepts(w1, token);
      assert AllPossible([]);
    }
    forall ops | AllPossible(ops) && Run(ttl, w1, ops).now <= time
                 && !Expired(FindRow(w1.db, token).value, Run(ttl, w1, ops).now)
                 && (!Hidden(w1, token) || Expired(FindRow(w.db, token).value, w.now))
      ensures Accepts(Run(ttl, w1, ops), token)
    {
      hide Run, Accepts, Valid;
      RunKeepsValid(ttl, w1, ops);
      NotHiddenIsInSight(ttl, w1, token);
      RunKeepsInSight(ttl, w1, ops, token);
      RevokedStays(ttl, w1, ops, token);
      InSightIsAccepted(ttl, Run(ttl, w1, ops), token);
    }
  }

  /** A key that was in the table for more than the entry lifetime is hidden
      by nothing. */
  lemma OldKeysAreNotHidden(ttl: real, w: World, token: string)
    requires Valid(ttl, w) && FindRow(w.db, token).Some? && w.now > FindRow(w.db, token).value.createdAt + ttl
    ensures !Hidden(w, token)
  {
    hide ExtractPrefix, FindRow, Valid;
    SeenFacts(ttl, w, token);
  }

  /** A row is never lost, and only its revocation and grace change. */
  lemma {:induction false} RowStays(ttl: real, w: World, ops: seq<Op>, token: string)
    requires FindRow(w.db, token).Some?
    ensures var r := FindRow(Run(ttl, w, ops).db, token);
            && r.Some?
            && r.value.(revokedAt := None, grace := 0) == FindRow(w.db, token).value.(revokedAt := None, grace := 0)
    decreases |ops|
  {
    if ops != [] {
      StepKeepsRow(ttl, w, ops[0], token);
      hide Step;
      RowStays(ttl, Step(ttl, w, ops[0]).0, ops[1..], token);
    }
  }

  lemma StepKeepsRow(ttl: real, w: World, op: Op, token: string)
    requires FindRow(w.db, token).Some?
    ensures var r := FindRow(Step(ttl, w, op).0.db, token);
            && r.Some?
            && r.value.(revokedAt := None, grace := 0) == FindRow(w.db, token).value.(revokedAt := None, grace := 0)
  {
    hide FindRow, Presented, ExtractPrefix, Candidates, Revoke, AnyRevocable, AfterPut, AfterGet, Live, Without;
    match op
    case Create(tenant, grace, expiresAt, key) =>
      FindAppend(w.db, MadeRow(key, tenant, w.now, expiresAt, grace), token);
    case Rotate(tenant, prefix, grace, key, wired) =>
      FindRevoke(w.db, tenant, prefix, w.now, grace, token);
      FindAppend(Revoke(w.db, tenant, prefix, w.now, grace), MadeRow(key, tenant, w.now, None, grace), token);
    case _ =>
  }

  /** The rotation succeeds and its generated token was not in the table. */
  ghost predicate Renews(w: World, op: Op) {
    && op.Rotate? && Possible(op) && GraceOk(op.grace)
    && AnyRevocable(w.db, op.tenant, op.prefix)
    && FindRow(w.db, op.key.Token()).None?
  }

  lemma NewRow(ttl: real, w: World, op: Op)
    requires Renews(w, op)
    ensures FindRow(Step(ttl, w, op).0.db, op.key.Token()) == Some(MadeRow(op.key, op.tenant, w.now, None, op.grace))
    ensures ExtractPrefix(op.key.Token()) == Some(op.key.prefix)
  {
    hide FindRow, Revoke, Without, ExtractPrefix;
    var row := MadeRow(op.key, op.tenant, w.now, None, op.grace);
    MadeRowIsKeyed(op.key);
    FindRevoke(w.db, op.tenant, op.prefix, w.now, op.grace, row.token);
    FindAppend(Revoke(w.db, op.tenant, op.prefix, w.now, op.grace), row, row.token);
  }

  /** In every continuation the token is accepted until a rotation of its own
      has run out its grace. */
  ghost predicate AlwaysWorks(ttl: real, w: World, token: string) {
    forall ops | AllPossible(ops) && FindRow(Run(ttl, w, ops).db, token).Some?
                 && !PastGrace(FindRow(Run(ttl, w, ops).db, token).value, Run(ttl, w, ops).now)
      :: Accepts(Run(ttl, w, ops), token)
  }

  /** The new key works from the rotation on, in every continuation, exactly
      when no live entry of its prefix is cached at that moment. */
  lemma NewKeyWorksAtOnceIff(ttl: real, w: World, rotate: Op)
    requires Valid(ttl, w) && Renews(w, rotate)
    ensures var w1 := Step(ttl, w, rotate).0;
            AlwaysWorks(ttl, w1, rotate.key.Token()) <==> Live(w1.store, rotate.key.prefix, w.now).None?
  {
    var w1, token := Step(ttl, w, rotate).0, rotate.key.Token();
    NewRow(ttl, w, rotate);
    StepKeepsValid(ttl, w, rotate);
    NewKeyIsUnknown(ttl, w, rotate);
    hide FindRow, ExtractPrefix, Step, Valid, Live, Accepts;
    if Hidden(w1, token) {
      HiddenIsRefused(w1, token);
      assert Run(ttl, w1, []) == w1;
      assert AllPossible([]);
      assert !AlwaysWorks(ttl, w1, token);
    } else {
      forall ops | AllPossible(ops) && FindRow(Run(ttl, w1, ops).db, token).Some?
                   && !PastGrace(FindRow(Run(ttl, w1, ops).db, token).value, Run(ttl, w1, ops).now)
        ensures Accepts(Run(ttl, w1, ops), token)
      {
        hide Run;
        RunKeepsValid(ttl, w1, ops);
        NotHiddenIsInSight(ttl, w1, token);
        RunKeepsInSight(ttl, w1, ops, token);
        RowStays(ttl, w1, ops, token);
        InSightIsAccepted(ttl, Run(ttl, w1, ops), token);
      }
    }
  }

  /** A live entry of the new key's prefix cannot hold the new key. */
  lemma NewKeyIsUnknown(ttl: real, w: World, op: Op)
    requires Valid(ttl, w) && Renews(w, op)
    ensures var w1 := Step(ttl, w, op).0;
            Hidden(w1, op.key.Token()) <==> Live(w1.store, op.key.prefix, w.now).Some?
  {
    hide FindRow, ExtractPrefix, Revoke, Distinct, Keyed, AnyRevocable;
    MadeRowIsKeyed(op.key);
    var w1 := Step(ttl, w, op).0;
    var e := Live(w1.store, op.key.prefix, w.now);
    if e.Some? {
      assert e.value in w.store;
      assert EntryOk(ttl, e.value, w.db, w.now);
      assert Lags(FindRow(e.value.rows, op.key.Token()), FindRow(w.db, op.key.Token()), e.value.expiresAt - ttl);
    }
  }

  lemma HiddenIsRefused(w: World, token: string)
    requires Hidden(w, token)
    ensures !Accepts(w, token)
  {
  }

  /** Whatever was cached, the new key works once more than the entry lifetime
      has passed. */
  lemma NewKeyWorksAfterTtl(ttl: real, w: World, rotate: Op, ops: seq<Op>)
    requires Valid(ttl, w) && Renews(w, rotate) && AllPossible(ops)
    requires Run(ttl, Step(ttl, w, rotate).0, ops).now > w.now + ttl
    ensures var last, token := Run(ttl, Step(ttl, w, rotate).0, ops), rotate.key.Token();
            && FindRow(last.db, token).Some?
            && (!PastGrace(FindRow(last.db, token).value, last.now) ==> Accepts(last, token))
  {
    var w1, token := Step(ttl, w, rotate).0, rotate.key.Token();
    NewRow(ttl, w, rotate);
    StepKeepsValid(ttl, w, rotate);
    hide FindRow, ExtractPrefix, Step, Valid, Run, Hidden, InSight;
    RunKeepsValid(ttl, w1, ops);
    RowStays(ttl, w1, ops, token);
    var last := Run(ttl, w1, ops);
    OldKeysAreNotHidden(ttl, last, token);
    NotHiddenIsInSight(ttl, last, token);
    if !PastGrace(FindRow(last.db, token).value, last.now) {
      InSightIsAccepted(ttl, last, token);
    }
  }

  const OLD := NewKey("id", "aaaaaaaa", "old")
  const NEW := NewKey("new", "bbbbbbbb", "new")
  const OLD_ROW := MadeRow(OLD, "tenant", 0.0, None, 3600)

  const MAKE := Create("tenant", 3600, None, OLD)
  const USE := Authenticate("Bearer " + OLD.Token())
  const ROTATION := Rotate("tenant", OLD.prefix, 1, NEW, false)

  /** One key, fetched into the cache at time 0. */
  function OverrunWorld(): World { World([OLD_ROW], [Entry(OLD.prefix, [OLD_ROW], 60.0)], 0.0) }

  /** The documented end of the grace period, T + G, is missed by a service that is
      not notified: with entries kept 60 seconds, a key is made, used, and rotated
      at time 0 with one second of grace; at time 60 it is still accepted. */
  lemma GraceOverrunExample()
    ensures Possible(MAKE) && Possible(USE) && Possible(ROTATION)
    ensures var w := Run(60.0, World([], [], 0.0), [MAKE, USE]);
            && Rotates(w, ROTATION, OLD.Token()) && w.now == 0.0
            && Step(60.0, w, ROTATION).1 == KeyMade(NEW)
            && var last := Run(60.0, World([], [], 0.0), [MAKE, USE, ROTATION, Tick(60.0)]);
               last.now == 60.0 && Accepts(last, OLD.Token())
  {
    hide Step, Accepts, Rotates, FindRow, ExtractPrefix, Candidates;
    var ops, w0 := [MAKE, USE, ROTATION, Tick(60.0)], World([], [], 0.0);
    KeyIsCached();
    RotationMissesCache();
    var w := OverrunWorld();
    var w1, w2 := Step(60.0, w0, MAKE).0, Step(60.0, w, ROTATION).0;
    assert [MAKE, USE][1..] == [USE] && [USE][1..] == [];
    assert ops[1..][1..] == ops[2..] && ops[2..][1..] == ops[3..] && ops[3..][1..] == [];
    assert Run(60.0, w0, [MAKE, USE]) == Run(60.0, w1, [USE]) == Run(60.0, w, []);
    assert Run(60.0, w0, ops) == Run(60.0, w1, ops[1..]) == Run(60.0, w, ops[2..]) == Run(60.0, w2, ops[3..]);
    assert Run(60.0, w2, ops[3..]) == Run(60.0, Step(60.0, w2, Tick(60.0)).0, []);
  }

  /** After the key is made and used once, its row is cached. */
  lemma KeyIsCached()
    ensures var w0 := World([], [], 0.0);
            Step(60.0, Step(60.0, w0, MAKE).0, USE).0 == OverrunWorld()
    ensures Possible(MAKE) && Possible(USE) && Possible(ROTATION)
  {
    hide AuthenticateStep;
    assert [] + [OLD_ROW] == [OLD_ROW];
    FirstUse();
  }

  lemma KeyPresents()
    ensures Presented("Bearer " + OLD.Token()) == Some(OLD.Token())
  {
    assert OLD.Token() == "aaaaaaaa_old";
    assert Lower("Bearer") == "bearer";
    BearerPresents("Bearer", OLD.Token());
    assert "Bearer" + (" " + OLD.Token()) == "Bearer " + OLD.Token();
  }

  lemma FirstUse()
    ensures AuthenticateStep(60.0, World([OLD_ROW], [], 0.0), "Bearer " + OLD.Token()).0 == OverrunWorld()
  {
    hide Presented, ExtractPrefix, FindRow;
    MadeRowIsKeyed(OLD);
    KeyPresents();
    var db := [OLD_ROW];
    assert db[1..] == [] && Candidates(db, OLD.prefix) == [OLD_ROW] + [];
    assert Candidates(db, OLD.prefix) == [OLD_ROW];
    assert AfterGet([], OLD.prefix, 0.0) == [] && Live([], OLD.prefix, 0.0) == None;
    var e := Entry(OLD.prefix, [OLD_ROW], 60.0);
    assert AfterPut([], e) == [e];
  }

  /** The rotation revokes the row in the table and leaves it in the cache. */
  lemma RotationMissesCache()
    ensures Rotates(OverrunWorld(), ROTATION, OLD.Token())
    ensures var w := Step(60.0, OverrunWorld(), ROTATION).0;
            Step(60.0, OverrunWorld(), ROTATION).1 == KeyMade(NEW)
            && Accepts(Step(60.0, w, Tick(60.0)).0, OLD.Token()) && Step(60.0, w, Tick(60.0)).0.now == 60.0
  {
    hide Revoke, AnyRevocable, ExtractPrefix;
    MadeRowIsKeyed(OLD);
    RotationRevokes(60.0, OverrunWorld(), ROTATION, OLD.Token());
  }

  // ----- what a rotation leaves alone, and what a header presents ----------

  /** Rotation touches only the tenant's unrevoked rows of the prefix. */
  lemma RotationLeavesOthers(ttl: real, w: World, op: Op, token: string)
    requires op.Rotate? && FindRow(w.db, token).Some?
    requires !Revocable(FindRow(w.db, token).value, op.tenant, op.prefix)
    ensures FindRow(Step(ttl, w, op).0.db, token) == FindRow(w.db, token)
  {
    hide FindRow, Revoke, AnyRevocable, Without;
    FindRevoke(w.db, op.tenant, op.prefix, w.now, op.grace, token);
    FindAppend(Revoke(w.db, op.tenant, op.prefix, w.now, op.grace),
               MadeRow(op.key, op.tenant, w.now, None, op.grace), token);
  }

  /** The scheme in any case, a space, and a token without surrounding space
      present that token. */
  lemma BearerPresents(scheme: string, token: string)
    requires Lower(scheme) == "bearer"
    requires token != "" && !IsSpace(token[0]) && !IsSpace(token[|token| - 1])
    ensures Presented(scheme + (" " + token)) == Some(token)
  {
    var header := scheme + (" " + token);
    assert |Lower(scheme)| == 6;
    forall i | 0 <= i < 6 ensures scheme[i] != ' ' {
      assert Lower(scheme)[i] == LowerChar(scheme[i]) && Lower(scheme)[i] == "bearer"[i];
    }
    assert header[6] == ' ';
    assert Index(header, ' ') == 6;
    assert header[..6] == scheme && header[7..] == token;
  }
}
