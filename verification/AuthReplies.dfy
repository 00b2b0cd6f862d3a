/** What every reply says: the row that decides it and the conditions on that
    row's times; how a key is answered after it was made; what a rotation does to
    each row; and what is cached. */
module AuthReplies {
  import opened Text
  import opened Auth

  // ----- headers and prefixes ----------------------------------------------

  predicate AllSpace(s: string) { forall i | 0 <= i < |s| :: IsSpace(s[i]) }

  /** A token without surrounding space. */
  predicate Bare(token: string) { token != "" && !IsSpace(token[0]) && !IsSpace(token[|token| - 1]) }

  lemma {:induction false} StripLeftAround(front: string, s: string)
    requires AllSpace(front) && (s == "" || !IsSpace(s[0]))
    ensures StripLeft(front + s) == s
  {
    if front == "" {
      assert front + s == s;
    } else {
      assert (front + s)[1..] == front[1..] + s;
      StripLeftAround(front[1..], s);
    }
  }

  lemma {:induction false} StripRightAround(s: string, back: string)
    requires AllSpace(back) && (s == "" || !IsSpace(s[|s| - 1]))
    ensures StripRight(s + back) == s
  {
    if back == "" {
      assert s + back == s;
    } else {
      assert (s + back)[..|s + back| - 1] == s + back[..|back| - 1];
      StripRightAround(s, back[..|back| - 1]);
    }
  }

  lemma {:induction false} StripLeftParts(s: string) returns (front: string)
    ensures s == front + StripLeft(s) && AllSpace(front)
    ensures StripLeft(s) != "" ==> !IsSpace(StripLeft(s)[0])
  {
    if s != "" && IsSpace(s[0]) {
      var rest := StripLeftParts(s[1..]);
      front := [s[0]] + rest;
      assert s == [s[0]] + s[1..];
    } else {
      front := "";
    }
  }

  lemma {:induction false} StripRightParts(s: string) returns (back: string)
    ensures s == StripRight(s) + back && AllSpace(back)
    ensures StripRight(s) != "" ==> !IsSpace(StripRight(s)[|StripRight(s)| - 1]) && StripRight(s)[0] == s[0]
  {
    if s != "" && IsSpace(s[|s| - 1]) {
      var rest := StripRightParts(s[..|s| - 1]);
      back := rest + [s[|s| - 1]];
      assert s == s[..|s| - 1] + [s[|s| - 1]];
    } else {
      back := "";
    }
  }

  /** The scheme, a space, and the token with any space around it. */
  ghost predicate Bears(header: string, scheme: string, front: string, token: string, back: string) {
    && AnyCase(scheme, "bearer") && Bare(token) && AllSpace(front) && AllSpace(back)
    && header == scheme + (" " + (front + (token + back)))
  }

  lemma SchemeHasNoSpace(scheme: string)
    requires Lower(scheme) == "bearer"
    ensures |scheme| == 6 && ' ' !in scheme
  {
    forall i | 0 <= i < |scheme| ensures scheme[i] != ' ' {
      assert Lower(scheme)[i] == LowerChar(scheme[i]) && Lower(scheme)[i] == "bearer"[i];
    }
  }

  lemma {:induction false} IndexAt(s: string, c: char, i: nat)
    requires i < |s| && s[i] == c && c !in s[..i]
    ensures Index(s, c) == i
  {
    if i > 0 {
      assert s[..i][0] == s[0] && s[1..][..i - 1] == s[..i][1..];
      IndexAt(s[1..], c, i - 1);
    }
  }

  lemma BearsPresents(header: string, scheme: string, front: string, token: string, back: string)
    requires Bears(header, scheme, front, token, back)
    ensures Presented(header) == Some(token)
  {
    hide StripLeft, StripRight, Lower, IsSpace;
    LowerIsAnyCase(scheme, "bearer");
    SchemeHasNoSpace(scheme);
    assert header[..6] == scheme && header[6] == ' ' && header[7..] == front + (token + back);
    IndexAt(header, ' ', 6);
    assert (token + back)[0] == token[0];
    StripLeftAround(front, token + back);
    StripRightAround(token, back);
  }

  /** A header presents a token if and only if it is the bearer scheme in any case,
      a space, and the token with any space around it. */
  lemma PresentedIff(header: string, token: string)
    ensures Presented(header) == Some(token)
            <==> exists scheme, front, back :: Bears(header, scheme, front, token, back)
  {
    hide StripLeft, StripRight, Lower, IsSpace, Bears;
    if scheme, front, back :| Bears(header, scheme, front, token, back) {
      BearsPresents(header, scheme, front, token, back);
    }
    if Presented(header) == Some(token) {
      var i := Index(header, ' ');
      var front := StripLeftParts(header[i + 1..]);
      var back := StripRightParts(StripLeft(header[i + 1..]));
      assert header == header[..i] + (" " + (front + (token + back)));
      assert Bears(header, header[..i], front, token, back) by {
        TokenIsBare(header[i + 1..], token);
        MakeBears(header, header[..i], front, token, back);
      }
    }
  }

  lemma MakeBears(header: string, scheme: string, front: string, token: string, back: string)
    requires Lower(scheme) == "bearer" && Bare(token) && AllSpace(front) && AllSpace(back)
    requires header == scheme + (" " + (front + (token + back)))
    ensures Bears(header, scheme, front, token, back)
  {
    LowerIsAnyCase(scheme, "bearer");
  }

  lemma TokenIsBare(s: string, token: string)
    requires Strip(s) == token && token != ""
    ensures Bare(token)
  {
    hide StripLeft, StripRight, IsSpace;
    var front := StripLeftParts(s);
    var back := StripRightParts(StripLeft(s));
  }

  /** The prefix of a token is what stands before its first underscore, if that
      has between 8 and 12 characters. */
  lemma PrefixIff(token: string, prefix: string)
    ensures ExtractPrefix(token) == Some(prefix)
            <==> 8 <= |prefix| <= 12 && '_' !in prefix && prefix + "_" <= token
  {
    if 8 <= |prefix| <= 12 && '_' !in prefix && prefix + "_" <= token {
      assert token[..|prefix|] == (prefix + "_")[..|prefix|] == prefix;
      IndexAt(token, '_', |prefix|);
    }
  }

  // ----- the row that decides ----------------------------------------------

  /** An entry of the token's prefix that has not expired. */
  predicate Fresh(e: Entry, token: string, now: real) {
    ExtractPrefix(token) == Some(e.prefix) && now <= e.expiresAt
  }

  /** The rows a token is looked for in: those of a fresh entry, or else the
      table's. */
  ghost predicate LookedForIn(w: World, token: string, rows: seq<Row>) {
    if exists e :: e in w.store && Fresh(e, token, w.now)
    then exists e :: e in w.store && Fresh(e, token, w.now) && rows == e.rows
    else rows == w.db
  }

  predicate HasToken(rows: seq<Row>, token: string) { exists i | 0 <= i < |rows| :: rows[i].token == token }

  /** The first of the rows that has the token. */
  predicate FirstWith(rows: seq<Row>, token: string, i: nat) {
    i < |rows| && rows[i].token == token && forall j | 0 <= j < i :: rows[j].token != token
  }

  lemma {:induction false} FindsFirst(rows: seq<Row>, token: string) returns (i: nat)
    ensures FindRow(rows, token).None? ==> !HasToken(rows, token)
    ensures FindRow(rows, token).Some? ==> FirstWith(rows, token, i) && FindRow(rows, token) == Some(rows[i])
  {
    i := 0;
    if rows != [] && rows[0].token != token {
      var k := FindsFirst(rows[1..], token);
      i := k + 1;
    }
  }

  /** The rows looked for in are those the step uses. */
  lemma SeenRows(ttl: real, w: World, token: string, rows: seq<Row>)
    requires Valid(ttl, w) && LookedForIn(w, token, rows)
    ensures Seen(w, token) == FindRow(rows, token)
  {
    hide ExtractPrefix, FindRow, EntryOk, Keyed;
    if e :| e in w.store && Fresh(e, token, w.now) && rows == e.rows {
      LookupFinds(w.store, e);
    } else if ExtractPrefix(token).None? {
      UnprefixedIsUnknown(w.db, token);
    }
  }

  lemma UnprefixedIsUnknown(rows: seq<Row>, token: string)
    requires Keyed(rows) && ExtractPrefix(token).None?
    ensures FindRow(rows, token) == None
  {
    hide ExtractPrefix, FindRow;
    FindIn(rows, token);
  }

  /** The table holds this key: the same token, id, tenant and expiry. */
  ghost predicate InTable(db: seq<Row>, r: Row) {
    exists d :: d in db && d.token == r.token && d.id == r.id && d.tenant == r.tenant && d.expiresAt == r.expiresAt
  }

  lemma SeenIsInTable(ttl: real, w: World, token: string)
    requires Valid(ttl, w) && Seen(w, token).Some?
    ensures InTable(w.db, Seen(w, token).value)
  {
    hide ExtractPrefix, FindRow, Distinct, Keyed;
    FindIn(w.db, token);
    var hit := Live(w.store, ExtractPrefix(token).value, w.now);
    if hit.Some? {
      assert EntryOk(ttl, hit.value, w.db, w.now);
      assert Lags(FindRow(hit.value.rows, token), FindRow(w.db, token), hit.value.expiresAt - ttl);
    }
  }

  /** In every run a request that presents a token is answered by the first row
      with that token among those it is looked for in, which is a row of the table:
      expired after its expiry, revoked after the grace of its revocation, and
      otherwise accepted as its tenant and id; and without such a row the token is
      invalid. */
  lemma RepliesAreRight(ttl: real, w0: World, ops: seq<Op>, header: string, rows: seq<Row>)
    requires Initial(w0) && AllPossible(ops)
    requires Presented(header).Some? && LookedForIn(Run(ttl, w0, ops), Presented(header).value, rows)
    ensures var w, token := Run(ttl, w0, ops), Presented(header).value;
            var reply := Step(ttl, w, Authenticate(header)).1;
            && (reply == Rejected(InvalidToken) <==> !HasToken(rows, token))
            && (HasToken(rows, token) ==>
                  exists i: nat :: FirstWith(rows, token, i) && InTable(w.db, rows[i]) && Answers(rows[i], w.now, reply))
  {
    hide Run, Step, Valid, Initial, FindRow, Presented, ExtractPrefix, Seen, LookedForIn, InTable;
    InitialIsValid(ttl, w0);
    RunKeepsValid(ttl, w0, ops);
    var w, token := Run(ttl, w0, ops), Presented(header).value;
    KeyedNow(ttl, w);
    AuthenticateJudges(ttl, w, header);
    SeenRows(ttl, w, token, rows);
    var i := FindsFirst(rows, token);
    if Seen(w, token).Some? {
      SeenIsInTable(ttl, w, token);
      JudgeAnswers(rows[i], w.now);
      assert rows[i].token == token;
    }
  }

  lemma KeyedNow(ttl: real, w: World)
    requires Valid(ttl, w)
    ensures Keyed(w.db)
  {
  }

  /** The reply that a row deserves. */
  predicate Answers(r: Row, now: real, reply: Reply) {
    var expired := r.expiresAt.Some? && now > r.expiresAt.value;
    var dead := r.revokedAt.Some? && now > r.revokedAt.value + r.grace as real;
    && (reply == Rejected(ExpiredToken) <==> expired)
    && (reply == Rejected(RevokedToken) <==> !expired && dead)
    && (reply.Accepted? <==> !expired && !dead)
    && (reply.Accepted? ==> reply.tenant == r.tenant && reply.id == r.id)
  }

  lemma JudgeAnswers(r: Row, now: real)
    ensures Answers(r, now, Judge(Some(r), now))
  {
  }

  /** Without a token in the header that is what is missing, whatever the world. */
  lemma NothingPresented(ttl: real, w: World, header: string)
    requires Presented(header).None?
    ensures Step(ttl, w, Authenticate(header)) == (w, Rejected(MissingToken))
  {
  }

  // ----- a key from its creation on ----------------------------------------

  /** The creation succeeds, with a token that was not in the table. */
  ghost predicate Creates(w: World, op: Op) {
    op.Create? && Possible(op) && 1 <= op.grace <= 86400 && FindRow(w.db, op.key.prefix + "_" + op.key.random).None?
  }

  /** Creation adds one row and touches nothing else; a grace period outside a
      second to a day is refused. */
  lemma CreationAddsRow(ttl: real, w: World, op: Op)
    requires op.Create?
    ensures if 1 <= op.grace <= 86400
            then
              && Step(ttl, w, op).1 == KeyMade(op.key)
              && Step(ttl, w, op).0
                 == w.(db := w.db + [Row(op.key.id, op.tenant, op.key.prefix, op.key.prefix + "_" + op.key.random,
                                         w.now, op.expiresAt, None, op.grace)])
            else Step(ttl, w, op) == (w, InvalidGrace)
  {
    assert op.key.prefix + ("_" + op.key.random) == op.key.prefix + "_" + op.key.random;
  }

  /** From its creation on, once no older entry of its prefix is live, a key is
      answered with its tenant and id until its own expiry, and as expired after,
      as long as no rotation revokes it. */
  lemma CreatedKeyIsAnswered(ttl: real, w: World, op: Op, ops: seq<Op>, header: string)
    requires Valid(ttl, w) && Creates(w, op) && AllPossible(ops)
    requires Presented(header) == Some(op.key.prefix + "_" + op.key.random)
    requires var w1 := Step(ttl, w, op).0;
             Live(w1.store, op.key.prefix, w.now).None? || Run(ttl, w1, ops).now > w.now + ttl
    ensures var w2, token := Run(ttl, Step(ttl, w, op).0, ops), op.key.prefix + "_" + op.key.random;
            var reply := Step(ttl, w2, Authenticate(header)).1;
            && FindRow(w2.db, token).Some?
            && (FindRow(w2.db, token).value.revokedAt.None? ==>
                  reply == if op.expiresAt.Some? && w2.now > op.expiresAt.value then Rejected(ExpiredToken)
                           else Accepted(op.tenant, op.key.id))
  {
    hide Run, Step, Valid, FindRow, Presented, ExtractPrefix, Live, InSight, Hidden, Seen;
    var w1, token := Step(ttl, w, op).0, op.key.prefix + "_" + op.key.random;
    CreatedRow(ttl, w, op);
    StepKeepsValid(ttl, w, op);
    RunKeepsValid(ttl, w1, ops);
    RowStays(ttl, w1, ops, token);
    var w2 := Run(ttl, w1, ops);
    if Live(w1.store, op.key.prefix, w.now).None? {
      NotLiveIsInSight(ttl, w1, token);
      RunKeepsInSight(ttl, w1, ops, token);
    } else {
      OldKeysAreNotHidden(ttl, w2, token);
      NotHiddenIsInSight(ttl, w2, token);
    }
    KeyedNow(ttl, w2);
    AuthenticateJudges(ttl, w2, header);
    if FindRow(w2.db, token).value.revokedAt.None? { InSightIsSeen(ttl, w2, token); }
  }

  lemma CreatedRow(ttl: real, w: World, op: Op)
    requires Creates(w, op)
    ensures var token := op.key.prefix + "_" + op.key.random;
            && ExtractPrefix(token) == Some(op.key.prefix)
            && Step(ttl, w, op).0.now == w.now
            && FindRow(Step(ttl, w, op).0.db, token)
               == Some(Row(op.key.id, op.tenant, op.key.prefix, token, w.now, op.expiresAt, None, op.grace))
  {
    hide FindRow, ExtractPrefix;
    CreationAddsRow(ttl, w, op);
    MadeRowIsKeyed(op.key);
    var token := op.key.prefix + "_" + op.key.random;
    assert op.key.Token() == token;
    FindAppend(w.db, Row(op.key.id, op.tenant, op.key.prefix, token, w.now, op.expiresAt, None, op.grace), token);
  }

  lemma NotLiveIsInSight(ttl: real, w: World, token: string)
    requires Valid(ttl, w) && ExtractPrefix(token).Some? && Live(w.store, ExtractPrefix(token).value, w.now).None?
    ensures InSight(w, token)
  {
    hide ExtractPrefix, FindRow, EntryOk, Keyed;
    if e :| e in w.store && ExtractPrefix(token) == Some(e.prefix) && w.now <= e.expiresAt {
      LookupFinds(w.store, e);
      assert false;
    }
  }

  /** A token in sight that is not revoked is seen as the table has it. */
  lemma InSightIsSeen(ttl: real, w: World, token: string)
    requires Valid(ttl, w) && InSight(w, token) && FindRow(w.db, token).Some?
    requires FindRow(w.db, token).value.revokedAt.None?
    ensures Seen(w, token) == FindRow(w.db, token)
  {
    hide ExtractPrefix, FindRow, Valid, Seen;
    SeenFacts(ttl, w, token);
  }

  // ----- what a rotation does to the table ---------------------------------

  /** A rotation is refused for a grace period outside a second to a day, and
      finds no key if the tenant has no unrevoked row of the prefix. Otherwise it
      revokes exactly those rows, now and with its grace, leaves every other row
      as it is, adds the new key without expiry, and invalidates the prefix where
      it is to notify. */
  lemma RotationEffect(ttl: real, w: World, op: Op)
    requires op.Rotate?
    ensures var (w1, reply) := Step(ttl, w, op);
            var any := exists i | 0 <= i < |w.db| ::
                         w.db[i].tenant == op.tenant && w.db[i].prefix == op.prefix && w.db[i].revokedAt.None?;
            if !(1 <= op.grace <= 86400) then w1 == w && reply == InvalidGrace
            else if !any then w1 == w && reply == KeyNotFound
            else
              && reply == KeyMade(op.key) && |w1.db| == |w.db| + 1 && w1.now == w.now
              && (forall i | 0 <= i < |w.db| ::
                    w1.db[i] == if w.db[i].tenant == op.tenant && w.db[i].prefix == op.prefix && w.db[i].revokedAt.None?
                                then w.db[i].(revokedAt := Some(w.now), grace := op.grace) else w.db[i])
              && w1.db[|w.db|] == Row(op.key.id, op.tenant, op.key.prefix, op.key.prefix + "_" + op.key.random,
                                      w.now, None, None, op.grace)
              && w1.store == if op.wired then Step(ttl, w, Invalidate(op.prefix)).0.store else w.store
  {
    hide Revoke, Without;
    assert op.key.prefix + ("_" + op.key.random) == op.key.prefix + "_" + op.key.random;
    var w1 := Step(ttl, w, op).0;
    if GraceOk(op.grace) && AnyRevocable(w.db, op.tenant, op.prefix) {
      forall i | 0 <= i < |w.db| ensures w1.db[i] == RevokeOne(w.db[i], op.tenant, op.prefix, w.now, op.grace) {
        RevokeAt(w.db, op.tenant, op.prefix, w.now, op.grace, i);
      }
    }
  }

  // ----- what is cached ----------------------------------------------------

  predicate At(store: seq<Entry>, prefix: string, i: nat) { i < |store| && store[i].prefix == prefix }

  predicate Unknown(store: seq<Entry>, prefix: string) {
    forall i | 0 <= i < |store| :: store[i].prefix != prefix
  }

  lemma CutShift(store: seq<Entry>, i: nat)
    requires 0 < i < |store|
    ensures [store[0]] + (store[1..][..i - 1] + store[1..][i..]) == store[..i] + store[i + 1..]
  {
    assert store[..i] == [store[0]] + store[1..][..i - 1] && store[1..][i..] == store[i + 1..];
  }

  lemma {:induction false} WithoutAt(store: seq<Entry>, prefix: string, i: nat)
    requires Distinct(store) && At(store, prefix, i)
    ensures Without(store, prefix) == store[..i] + store[i + 1..]
  {
    if i == 0 {
      NothingToRemove(store[1..], prefix);
    } else {
      CutShift(store, i);
      WithoutAt(store[1..], prefix, i - 1);
      WithoutNext(store, prefix);
      hide Without;
    }
  }

  lemma WithoutNext(store: seq<Entry>, prefix: string)
    requires store != [] && store[0].prefix != prefix
    ensures Without(store, prefix) == [store[0]] + Without(store[1..], prefix)
  {
  }

  lemma {:induction false} LookupAt(store: seq<Entry>, prefix: string, i: nat)
    requires Distinct(store) && At(store, prefix, i)
    ensures Lookup(store, prefix) == Some(store[i])
  {
    if i > 0 { LookupAt(store[1..], prefix, i - 1); }
  }

  lemma {:induction false} AssignNew(store: seq<Entry>, e: Entry)
    requires Unknown(store, e.prefix)
    ensures Assign(store, e) == store + [e]
  {
    if store != [] { AssignNew(store[1..], e); }
  }

  lemma {:induction false} CandidatesAre(rows: seq<Row>, prefix: string, r: Row)
    ensures r in Candidates(rows, prefix) <==> r in rows && r.prefix == prefix
  {
    if rows != [] { CandidatesAre(rows[1..], prefix, r); }
  }

  /** The cache after a request, by whether a live entry answered it. */
  lemma RequestStore(ttl: real, w: World, header: string, prefix: string)
    requires Presented(header).Some? && ExtractPrefix(Presented(header).value) == Some(prefix)
    ensures Step(ttl, w, Authenticate(header)).0.store
            == if Live(w.store, prefix, w.now).Some? then w.store
               else AfterPut(Without(w.store, prefix), Entry(prefix, Candidates(w.db, prefix), w.now + ttl))
  {
    hide Presented, ExtractPrefix, Live, Without, AfterPut, Candidates, FindRow;
  }

  lemma NewestAtEnd(others: seq<Entry>, prefix: string, db: seq<Row>, until: real)
    requires Unknown(others, prefix) && |others| < 4096
    ensures Ends(AfterPut(others, Entry(prefix, Candidates(db, prefix), until)), others, prefix, db, until)
  {
    hide Candidates, Assign;
    var e := Entry(prefix, Candidates(db, prefix), until);
    forall r ensures r in e.rows <==> r in db && r.prefix == prefix {
      CandidatesAre(db, prefix, r);
    }
    AssignNew(others, e);
  }

  lemma OldestGoes(store: seq<Entry>, prefix: string, db: seq<Row>, until: real)
    requires Unknown(store, prefix) && |store| == 4096
    ensures Ends(AfterPut(store, Entry(prefix, Candidates(db, prefix), until)), store[1..], prefix, db, until)
  {
    hide Candidates, Assign;
    var e := Entry(prefix, Candidates(db, prefix), until);
    forall r ensures r in e.rows <==> r in db && r.prefix == prefix {
      CandidatesAre(db, prefix, r);
    }
    UnknownIsNotFound(store, prefix);
    AssignNew(store[1..], e);
  }

  lemma UnknownIsNotFound(store: seq<Entry>, prefix: string)
    requires Unknown(store, prefix)
    ensures Lookup(store, prefix).None?
  {
  }

  lemma LiveAt(store: seq<Entry>, prefix: string, i: nat, now: real)
    requires Distinct(store) && At(store, prefix, i)
    ensures Live(store, prefix, now).Some? <==> now <= store[i].expiresAt
    ensures Unknown(store[..i] + store[i + 1..], prefix)
  {
    LookupAt(store, prefix, i);
    hide Lookup;
  }

  /** What a request leaves in the cache: everything as it was if a fresh entry
      answered it; otherwise an entry with the table's rows of the prefix, good for
      the entry lifetime, as the newest, in place of an expired one, or of the
      oldest when 4096 others are there. */
  lemma CacheAfterRequest(ttl: real, w: World, header: string, prefix: string)
    requires Valid(ttl, w) && Presented(header).Some? && ExtractPrefix(Presented(header).value) == Some(prefix)
    ensures var store := Step(ttl, w, Authenticate(header)).0.store;
            && (forall i: nat | At(w.store, prefix, i) && w.now <= w.store[i].expiresAt :: store == w.store)
            && (forall i: nat | At(w.store, prefix, i) && w.now > w.store[i].expiresAt ::
                  Ends(store, w.store[..i] + w.store[i + 1..], prefix, w.db, w.now + ttl))
            && (Unknown(w.store, prefix) ==>
                  Ends(store, if |w.store| >= 4096 then w.store[1..] else w.store, prefix, w.db, w.now + ttl))
  {
    hide ExtractPrefix, Presented, EntryOk, Keyed, Step, Live, Without, AfterPut, Candidates, Ends, Unknown, Distinct;
    RequestStore(ttl, w, header, prefix);
    forall i: nat | At(w.store, prefix, i)
      ensures Live(w.store, prefix, w.now).Some? <==> w.now <= w.store[i].expiresAt
      ensures Ends(AfterPut(Without(w.store, prefix), Entry(prefix, Candidates(w.db, prefix), w.now + ttl)),
                   w.store[..i] + w.store[i + 1..], prefix, w.db, w.now + ttl)
    {
      LiveAt(w.store, prefix, i, w.now);
      WithoutAt(w.store, prefix, i);
      NewestAtEnd(w.store[..i] + w.store[i + 1..], prefix, w.db, w.now + ttl);
    }
    if Unknown(w.store, prefix) {
      UnknownIsNotLive(w.store, prefix, w.now);
      if |w.store| >= 4096 {
        OldestGoes(w.store, prefix, w.db, w.now + ttl);
      } else {
        NewestAtEnd(w.store, prefix, w.db, w.now + ttl);
      }
    }
  }

  lemma UnknownIsNotLive(store: seq<Entry>, prefix: string, now: real)
    requires Unknown(store, prefix)
    ensures Live(store, prefix, now).None? && Without(store, prefix) == store
  {
    UnknownIsNotFound(store, prefix);
    NothingToRemove(store, prefix);
  }

  /** The store is the others and a newest entry, filled from the table. */
  ghost predicate Ends(store: seq<Entry>, others: seq<Entry>, prefix: string, db: seq<Row>, until: real) {
    && |store| == |others| + 1 && store[..|others|] == others
    && var e := store[|others|];
       && e.prefix == prefix && e.expiresAt == until
       && forall r :: r in e.rows <==> r in db && r.prefix == prefix
  }

  /** An invalidation, by itself or by the rotation that a service is notified of,
      removes the entry of that prefix and no other. */
  lemma InvalidationEffect(ttl: real, w: World, prefix: string)
    requires Valid(ttl, w)
    ensures var w1 := Step(ttl, w, Invalidate(prefix)).0;
            && w1.db == w.db && w1.now == w.now
            && (forall i: nat | At(w.store, prefix, i) :: w1.store == w.store[..i] + w.store[i + 1..])
            && (Unknown(w.store, prefix) ==> w1.store == w.store)
  {
    hide EntryOk, Keyed, Without;
    forall i: nat | At(w.store, prefix, i) ensures Without(w.store, prefix) == w.store[..i] + w.store[i + 1..] {
      WithoutAt(w.store, prefix, i);
    }
    if Unknown(w.store, prefix) { NothingToRemove(w.store, prefix); }
  }
}
