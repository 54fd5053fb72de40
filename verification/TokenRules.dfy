/** What the operations on keys and tokens mean for their users: when a token is accepted, what an
    exchange or a registration leaves behind, why a key is refused, and that what was ended stays ended. */
module TokenRules {
  import opened Options
  import opened TimeText
  import opened TokenExchange

  // ---------- accepting a token ----------

  /** The install's last token, in an unrevoked row of that install that was active in the last 100 days. */
  ghost predicate Stands(w: World, token: string, install: string, now: int) {
    && token != "" && install in w.latest && w.latest[install] == token
    && exists i :: 0 <= i < |w.db.tokens| && Live(w.db.tokens[i], token, install)
                   && now - w.db.tokens[i].lastActive < 100 * 24 * 3_600_000_000_000
  }

  predicate Live(t: Token, token: string, install: string) {
    t.hash == TokenHash(token) && t.install == install && !t.revoked
  }

  /** A row is the only one of its token. */
  lemma OneRow(w: World, token: string, i: nat)
    requires Inv(w) && i < |w.db.tokens| && w.db.tokens[i].hash == TokenHash(token)
    ensures TokenAt(w.db.tokens, TokenHash(token), 0) == Some(i)
  {
  }

  /** In every reachable world a token is accepted if and only if it stands and the save succeeds. */
  lemma AcceptedIffStands(w: World, token: string, install: string, now: int, saves: bool)
    requires Inv(w)
    ensures Validate(w.db, token, install, now, saves).Done? <==> Stands(w, token, install, now) && saves
  {
    hide TokenAt;
    forall i | 0 <= i < |w.db.tokens| && Live(w.db.tokens[i], token, install)
      ensures TokenAt(w.db.tokens, TokenHash(token), 0) == Some(i)
    {
      OneRow(w, token, i);
    }
  }

  /** The same over every run from an empty database. */
  lemma RunsAcceptExactly(initialized: bool, users: set<string>, ops: seq<Op>,
                          token: string, install: string, now: int, saves: bool)
    requires Legal(World(Db(initialized, users, [], [], []), {}, map[]), ops)
    ensures var w := Run(World(Db(initialized, users, [], [], []), {}, map[]), ops);
            Validate(w.db, token, install, now, saves).Done? <==> Stands(w, token, install, now) && saves
  {
    var w0 := World(Db(initialized, users, [], [], []), {}, map[]);
    assert Inv(w0);
    hide Run, Legal, Inv, Stands, Validate;
    RunKeepsInv(w0, ops);
    AcceptedIffStands(Run(w0, ops), token, install, now, saves);
  }

  /** Accepting a token changes nothing but the instant of its row, from which the 100 days count anew. */
  lemma AcceptedTokenStartsAnew(w: World, token: string, install: string, now: int, later: int, i: nat)
    requires Inv(w) && Validate(w.db, token, install, now, true).Done?
    requires i < |w.db.tokens| && w.db.tokens[i].hash == TokenHash(token)
    ensures var v := Exec(w, DoValidate(token, install, now, true));
            && v == w.(db := w.db.(tokens := w.db.tokens[i := w.db.tokens[i].(lastActive := now)]))
            && (Validate(v.db, token, install, later, true).Done? <==> later - now < 100 * 24 * 3_600_000_000_000)
  {
    OneRow(w, token, i);
    var after := w.db.(tokens := w.db.tokens[i := w.db.tokens[i].(lastActive := now)]);
    assert after == Validate(w.db, token, install, now, true).db;
    assert after.tokens[i].hash == TokenHash(token);
    assert forall j :: 0 <= j < i ==> after.tokens[j].hash != TokenHash(token);
    assert TokenAt(after.tokens, TokenHash(token), 0) == Some(i);
  }

  /** Each refusal has its one reason. */
  lemma RefusedBecause(w: World, token: string, install: string, now: int, saves: bool, i: nat)
    requires Inv(w) && token != "" && i < |w.db.tokens| && w.db.tokens[i].hash == TokenHash(token)
    ensures var t := w.db.tokens[i];
            var idle := now - t.lastActive >= 100 * 24 * 3_600_000_000_000;
            var o := Validate(w.db, token, install, now, saves);
            && (o == Failed(TokenRevoked) <==> t.revoked)
            && (o == Failed(InstallMismatch) <==> !t.revoked && t.install != install)
            && (o == Failed(TokenExpired) <==> !t.revoked && t.install == install && idle)
            && (o == Failed(SaveFailed) <==> !t.revoked && t.install == install && !idle && !saves)
            && o != Failed(TokenInvalid)
  {
    OneRow(w, token, i);
  }

  /** A text without a row is no token. */
  lemma UnknownIsInvalid(w: World, token: string, install: string, now: int, saves: bool)
    requires token == "" || forall i :: 0 <= i < |w.db.tokens| ==> w.db.tokens[i].hash != TokenHash(token)
    ensures Validate(w.db, token, install, now, saves) == Failed(TokenInvalid)
  {
    hide TokenAt;
  }

  // ---------- ending a token ----------

  /** The token was issued and none of its rows, if there are any, is unrevoked. */
  ghost predicate Ended(w: World, token: string) {
    token in w.issued
    && forall i :: 0 <= i < |w.db.tokens| && w.db.tokens[i].hash == TokenHash(token) ==> w.db.tokens[i].revoked
  }

  /** What cleaning keeps, by instants instead of texts. */
  lemma {:induction false} CleansExactly(w: World, t: Token, now: int)
    ensures t in Exec(w, Clean(now)).db.tokens <==>
              && t in w.db.tokens && !t.revoked
              && ((now - t.lastActive < 100 * 24 * 3_600_000_000_000) != Blurred(t.lastActive, now - TTL))
    ensures Exec(w, Clean(now)) == w.(db := w.db.(tokens := Exec(w, Clean(now)).db.tokens))
  {
    hide KeepWhere, Blurred, TextAtMost;
    if t in w.db.tokens {
      CleanedExactly(w.db.tokens, t, now);
    }
    KeepMembers(w.db.tokens, (x: Token) => !(x.revoked || TextAtMost(x.lastActive, now - TTL)));
  }

  lemma EndedIsRefused(w: World, token: string, install: string, now: int, saves: bool)
    requires Ended(w, token)
    ensures Validate(w.db, token, install, now, saves).Failed?
  {
  }

  /** The operation is aimed at this row: it revokes or deletes it, by id, key, client, install or user. */
  ghost predicate Hits(db: Db, op: Op, t: Token) {
    match op
    case RevokeToken(id) => t.id == id
    case RevokeByKey(id) => t.keyId == id
    case DeleteClient(id, install) => t.client == id || t.install == install
    case DeleteUser(user) =>
      exists i :: 0 <= i < |db.clients| && db.clients[i].owner == user
                  && (t.client == db.clients[i].id || (t.install != "" && t.install == db.clients[i].install))
    case _ => false
  }

  ghost predicate Ends(op: Op) { op.RevokeToken? || op.RevokeByKey? || op.DeleteClient? || op.DeleteUser? }

  /** Ending tokens ends those it is aimed at and leaves every other row as it is. */
  lemma {:induction false} EndsExactly(w: World, op: Op, t: Token)
    requires Inv(w) && Ends(op) && t in w.db.tokens
    ensures Hits(w.db, op, t) ==> Ended(Exec(w, op), t.hash.text)
    ensures !Hits(w.db, op, t) ==> t in Exec(w, op).db.tokens
    ensures forall u :: u in Exec(w, op).db.tokens ==> u in w.db.tokens || u.(revoked := false) in w.db.tokens
  {
    hide KeepWhere, KeepClients, KeepKeys;
    var after := Exec(w, op).db.tokens;
    match op
    case RevokeToken(id) => RevokedRows(w, after, op, t);
    case RevokeByKey(id) => RevokedRows(w, after, op, t);
    case DeleteClient(id, install) =>
      KeepMembers(w.db.tokens, (x: Token) => !(x.client == id || x.install == install));
      KeptRows(w, after, op, t);
    case DeleteUser(user) =>
      KeepMembers(w.db.tokens, (x: Token) => !TokenOfUser(x, w.db.clients, user));
      KeptRows(w, after, op, t);
  }

  lemma RevokedRows(w: World, after: seq<Token>, op: Op, t: Token)
    requires Inv(w) && t in w.db.tokens && |after| == |w.db.tokens|
    requires forall i :: 0 <= i < |after| ==>
               after[i] == if Hits(w.db, op, w.db.tokens[i]) then w.db.tokens[i].(revoked := true) else w.db.tokens[i]
    ensures Hits(w.db, op, t) ==> forall i :: 0 <= i < |after| && after[i].hash == t.hash ==> after[i].revoked
    ensures t.hash.text in w.issued
    ensures !Hits(w.db, op, t) ==> t in after
    ensures forall u :: u in after ==> u in w.db.tokens || u.(revoked := false) in w.db.tokens
  {
  }

  lemma KeptRows(w: World, after: seq<Token>, op: Op, t: Token)
    requires Inv(w) && t in w.db.tokens
    requires forall u :: u in after <==> u in w.db.tokens && !Hits(w.db, op, u)
    ensures Hits(w.db, op, t) ==> forall i :: 0 <= i < |after| ==> after[i].hash != t.hash
    ensures t.hash.text in w.issued
  {
    forall i | 0 <= i < |after| && Hits(w.db, op, t) ensures after[i].hash != t.hash {
      assert after[i] in after;
    }
  }

  lemma {:induction false} EndedStaysEnded(w: World, op: Op, token: string)
    requires Inv(w) && Allowed(w, op) && Ended(w, token)
    ensures Ended(Exec(w, op), token)
  {
    hide KeepWhere, KeepClients, KeepKeys, CheckKey, TokenAt, FirstRefreshable;
    match op
    case Clean(now) =>
      KeepMembers(w.db.tokens, (t: Token) => !(t.revoked || TextAtMost(t.lastActive, now - TTL)));
      FewerRowsStayEnded(w, Exec(w, op), token);
    case DeleteClient(id, install) =>
      KeepMembers(w.db.tokens, (t: Token) => !(t.client == id || t.install == install));
      FewerRowsStayEnded(w, Exec(w, op), token);
    case DeleteUser(user) =>
      KeepMembers(w.db.tokens, (t: Token) => !TokenOfUser(t, w.db.clients, user));
      FewerRowsStayEnded(w, Exec(w, op), token);
    case _ =>
  }

  lemma FewerRowsStayEnded(w: World, v: World, token: string)
    requires Ended(w, token) && v.issued == w.issued && forall t :: t in v.db.tokens ==> t in w.db.tokens
    ensures Ended(v, token)
  {
    assert forall i :: 0 <= i < |v.db.tokens| ==> v.db.tokens[i] in w.db.tokens;
  }

  /** A token that was revoked, or whose client or user was deleted, is never accepted again. */
  lemma {:induction false} EndedForGood(w: World, op: Op, t: Token, ops: seq<Op>, install: string, now: int)
    requires Inv(w) && Ends(op) && t in w.db.tokens && Hits(w.db, op, t) && Legal(Exec(w, op), ops)
    ensures Validate(Run(Exec(w, op), ops).db, t.hash.text, install, now, true).Failed?
  {
    hide Inv, Exec, Legal, Run, Ended, Hits;
    EndsExactly(w, op, t);
    ExecKeepsInv(w, op);
    EndedOverRun(Exec(w, op), ops, t.hash.text);
    EndedIsRefused(Run(Exec(w, op), ops), t.hash.text, install, now, true);
  }

  lemma {:induction false} EndedOverRun(w: World, ops: seq<Op>, token: string)
    requires Inv(w) && Legal(w, ops) && Ended(w, token)
    ensures Ended(Run(w, ops), token)
    decreases |ops|
  {
    hide Inv, Exec, Allowed, Ended;
    if ops != [] {
      ExecKeepsInv(w, ops[0]);
      EndedStaysEnded(w, ops[0], token);
      EndedOverRun(Exec(w, ops[0]), ops[1..], token);
    }
  }

  /** Deleting a key, a client or a user takes exactly those rows of the other two tables. */
  lemma {:induction false} DeletesExactly(w: World, op: Op, c: Client, k: Key)
    requires op.DeleteKey? || op.DeleteClient? || op.DeleteUser?
    ensures c in Exec(w, op).db.clients <==>
              && c in w.db.clients && (op.DeleteClient? ==> c.id != op.clientId)
              && (op.DeleteUser? ==> c.owner != op.user)
    ensures k in Exec(w, op).db.keys <==>
              && k in w.db.keys && (op.DeleteKey? ==> k.id != op.keyId) && (op.DeleteUser? ==> k.owner != op.user)
  {
    hide KeepWhere, KeepClients, KeepKeys;
    match op
    case DeleteKey(id) => KeepKeysMembers(w.db.keys, (x: Key) => x.id != id);
    case DeleteClient(id, _) => KeepClientsMembers(w.db.clients, (x: Client) => x.id != id);
    case DeleteUser(user) =>
      KeepKeysMembers(w.db.keys, (x: Key) => x.owner != user);
      KeepClientsMembers(w.db.clients, (x: Client) => x.owner != user);
  }

  lemma {:induction false} KeepClientsMembers(clients: seq<Client>, p: Client -> bool)
    ensures forall c :: c in KeepClients(clients, p) <==> c in clients && p(c)
    decreases |clients|
  {
    if clients != [] {
      KeepClientsMembers(clients[1..], p);
      assert forall c :: c in clients <==> c == clients[0] || c in clients[1..];
    }
  }

  // ---------- checking a key ----------

  /** The rows tried for a key: those with its digest or, when no row has it, those without a digest. */
  ghost predicate Tried(keys: seq<Key>, raw: string, i: nat) {
    && i < |keys|
    && if exists j :: 0 <= j < |keys| && keys[j].lookup == Digest(raw) then keys[i].lookup == Digest(raw)
       else keys[i].lookup == NoDigest
  }

  /** The first tried row that holds the key. */
  ghost predicate Holds(keys: seq<Key>, raw: string, i: nat) {
    && Tried(keys, raw, i) && keys[i].hash == KeyHash(raw)
    && forall j: nat :: j < i && Tried(keys, raw, j) ==> keys[j].hash != KeyHash(raw)
  }

  /** What the check says of the row that holds the key, in the order of its tests. */
  lemma CheckedInOrder(db: Db, raw: string, now: int, at: nat)
    requires raw != "" && Holds(db.keys, raw, at)
    ensures var k := db.keys[at];
            var late := k.expires.Some? && k.expires.value < now;
            var used := 0 < k.maxUses <= k.useCount;
            var o := CheckKey(db, raw, now);
            && (o == Refused(UserDisabled) <==> k.owner !in db.activeUsers)
            && (o == Refused(KeyDisabled) <==> k.owner in db.activeUsers && !k.active)
            && (o == Refused(KeyExpired) <==> k.owner in db.activeUsers && k.active && late)
            && (o == Refused(KeyExhausted) <==> k.owner in db.activeUsers && k.active && !late && used)
            && (o == Usable(at) <==> k.owner in db.activeUsers && k.active && !late && !used)
  {
    assert Candidate(db.keys, raw, db.keys[at]);
    assert forall j: nat :: j < at && IsMatch(db.keys, raw, db.keys[j]) ==> Tried(db.keys, raw, j);
    assert FindFrom(db.keys, raw, 0) == Some(at);
  }

  /** Without such a row the key is invalid, except that a server without keys says it is not set up. */
  lemma NoRowNoKey(db: Db, raw: string, now: int)
    requires raw == "" || forall i: nat :: i < |db.keys| ==> !Holds(db.keys, raw, i)
    ensures CheckKey(db, raw, now) ==
              Refused(if raw != "" && db.keys == [] && !db.initialized then NotInitialized else KeyInvalid)
  {
    var found := FindFrom(db.keys, raw, 0);
    if found.Some? {
      assert forall j: nat :: j < found.value && Tried(db.keys, raw, j) ==> Candidate(db.keys, raw, db.keys[j]);
      assert Tried(db.keys, raw, found.value);
      assert Holds(db.keys, raw, found.value);
    }
  }

  /** A key that is added under a digest of its own is the one that is found. */
  lemma AddedKeyIsFound(w: World, k: Key, raw: string)
    requires k.lookup == Digest(raw) && k.hash == KeyHash(raw)
    requires forall i :: 0 <= i < |w.db.keys| ==> w.db.keys[i].lookup != Digest(raw)
    ensures Exec(w, AddKey(k)) == w.(db := w.db.(keys := w.db.keys + [k]))
    ensures Holds(Exec(w, AddKey(k)).db.keys, raw, |w.db.keys|)
  {
    assert Exec(w, AddKey(k)).db.keys[|w.db.keys|].lookup == Digest(raw);
  }

  /** Which users are active decides which keys are refused for their owners. */
  lemma OnlyActiveOwners(w: World, raw: string, at: nat, users: set<string>, now: int)
    requires raw != "" && Holds(w.db.keys, raw, at)
    ensures CheckKey(Exec(w, SetUsers(users)).db, raw, now) == Refused(UserDisabled) <==> w.db.keys[at].owner !in users
  {
    CheckedInOrder(Exec(w, SetUsers(users)).db, raw, now, at);
  }

  // ---------- what an exchange and a registration leave ----------

  /** After an exchange the install has one unrevoked token: the new one, of that key and client and active
      now, in a refreshed row or in a new one.  Its other rows were only revoked, and all else is as it was. */
  lemma {:induction false} ExchangeLeaves(w: World, q: Request, at: nat) returns (row: nat)
    requires Inv(w) && Fresh(w, q) && at < |w.db.keys|
    ensures var before, after := w.db.tokens, Exchanged(w.db, at, q).tokens;
            && row < |after| && row <= |before| <= |after| <= |before| + 1 && (row == |before| || |after| == |before|)
            && IsNewRow(after[row], w.db.keys[at].id, q)
            && after[row].id == (if row < |before| then before[row].id else q.newTokenId)
            && (forall i :: 0 <= i < |after| && i != row ==>
                  && i < |before| && after[i] == before[i].(revoked := after[i].revoked)
                  && if after[i].install == q.install then after[i].revoked else after[i] == before[i])
            && (row < |before| ==> before[row].install == q.install)
    ensures Exchanged(w.db, at, q) ==
              w.db.(tokens := Exchanged(w.db, at, q).tokens, keys := Exchanged(w.db, at, q).keys)
  {
    var before, after := w.db.tokens, Exchanged(w.db, at, q).tokens;
    var live := FirstRefreshable(before, q.install, w.db.keys[at].id, q.now, 0);
    row := if live.Some? then live.value else |before|;
    forall j | 0 <= j < |after| && j != row && after[j].install == q.install ensures after[j].revoked {
      if live.Some? {
        assert before[j].hash != before[row].hash;
      }
    }
  }

  predicate IsNewRow(t: Token, keyId: string, q: Request) {
    && t.hash == TokenHash(q.newToken) && t.install == q.install && t.keyId == keyId && t.client == q.client
    && t.lastActive == q.now && !t.revoked
  }

  /** A row is added exactly when the install holds no live token of that key. */
  lemma AddsRowUnlessLive(db: Db, at: nat, q: Request)
    requires at < |db.keys|
    ensures |Exchanged(db, at, q).tokens| == |db.tokens| + 1 <==>
              forall i :: 0 <= i < |db.tokens| && db.tokens[i].install == q.install && !db.tokens[i].revoked
                          && db.tokens[i].keyId == db.keys[at].id ==>
                q.now - db.tokens[i].lastActive >= 100 * 24 * 3_600_000_000_000
  {
    var live := FirstRefreshable(db.tokens, q.install, db.keys[at].id, q.now, 0);
    if live.Some? {
      assert Refreshable(db.tokens[live.value], q.install, db.keys[at].id, q.now);
    } else {
      assert forall i :: 0 <= i < |db.tokens| ==>
          !Refreshable(db.tokens[i], q.install, db.keys[at].id, q.now);
    }
  }

  /** What one install exchanges changes nothing for the tokens of another. */
  lemma {:induction false} OtherInstallsAreUntouched(w: World, q: Request, token: string, install: string, now: int)
    requires Inv(w) && Fresh(w, q) && Exchange(w.db, q).Done? && install != q.install
    ensures Stands(Exec(w, DoExchange(q)), token, install, now) <==> Stands(w, token, install, now)
  {
    hide CheckKey, Inv, Exchanged, IsNewRow;
    var before, after := w.db.tokens, Exec(w, DoExchange(q)).db.tokens;
    var row := ExchangeLeaves(w, q, CheckKey(w.db, q.raw, q.checkedAt).at);
    assert after[row].install == q.install;
    assert forall i :: 0 <= i < |before| && before[i].install == install ==> after[i] == before[i];
    assert forall i :: 0 <= i < |after| && after[i].install == install ==> i < |before| && after[i] == before[i];
  }

  /** The token that an exchange issues stands for its install, for 100 days from then. */
  lemma IssuedStands(w: World, q: Request, now: int)
    requires Inv(w) && Fresh(w, q) && Exchange(w.db, q).Done?
    ensures Stands(Exec(w, DoExchange(q)), q.newToken, q.install, now) <==>
              q.newToken != "" && now - q.now < 100 * 24 * 3_600_000_000_000
  {
    hide CheckKey, Inv, Exchanged;
    var at := CheckKey(w.db, q.raw, q.checkedAt).at;
    var after := Exec(w, DoExchange(q)).db.tokens;
    var row := ExchangeLeaves(w, q, at);
    assert Live(after[row], q.newToken, q.install);
    assert forall i :: 0 <= i < |after| && Live(after[i], q.newToken, q.install) ==> i == row;
  }

  /** Touching a token restarts its 100 days and leaves every other token as it is. */
  lemma {:induction false} TouchStartsAnew(w: World, i: nat, now: int, token: string, install: string, later: int)
    requires Inv(w) && i < |w.db.tokens|
    ensures var v := Exec(w, Touch(w.db.tokens[i].id, now));
            if Live(w.db.tokens[i], token, install)
            then Stands(v, token, install, later) <==> token != "" && later - now < 100 * 24 * 3_600_000_000_000
            else Stands(v, token, install, later) <==> Stands(w, token, install, later)
  {
    var before, after := w.db.tokens, Exec(w, Touch(w.db.tokens[i].id, now)).db.tokens;
    assert after == before[i := before[i].(lastActive := now)];
    if Live(before[i], token, install) {
      assert Live(after[i], token, install);
      assert forall j :: 0 <= j < |after| && Live(after[j], token, install) ==> j == i;
    } else {
      assert forall j :: 0 <= j < |after| && Live(after[j], token, install) ==> after[j] == before[j];
      assert forall j :: 0 <= j < |after| && Live(before[j], token, install) ==> after[j] == before[j];
    }
  }

  /** A key that is switched off is refused until it is switched on again, which undoes it. */
  lemma {:induction false} SwitchedOff(w: World, raw: string, at: nat, now: int)
    requires Inv(w) && raw != "" && Holds(w.db.keys, raw, at) && w.db.keys[at].active
    ensures var off := Exec(w, SetKeyActive(w.db.keys[at].id, false));
            && CheckKey(off.db, raw, now) ==
                 Refused(if w.db.keys[at].owner in w.db.activeUsers then KeyDisabled else UserDisabled)
            && Exec(off, SetKeyActive(w.db.keys[at].id, true)) == w
  {
    var keys, id := w.db.keys, w.db.keys[at].id;
    var off := Exec(w, SetKeyActive(id, false));
    assert off.db.keys == keys[at := keys[at].(active := false)];
    assert forall i :: 0 <= i < |keys| ==>
             off.db.keys[i].lookup == keys[i].lookup && off.db.keys[i].hash == keys[i].hash;
    assert forall j: nat :: Tried(off.db.keys, raw, j) <==> Tried(keys, raw, j);
    CheckedInOrder(off.db, raw, now, at);
    assert Exec(off, SetKeyActive(id, true)).db.keys == keys;
  }

  // ---------- registering ----------

  /** No two clients have the same install. */
  ghost predicate OneClientEach(clients: seq<Client>) {
    forall i, j :: 0 <= i < j < |clients| ==> clients[i].install != clients[j].install
  }

  lemma {:induction false} KeepOneClientEach(clients: seq<Client>, p: Client -> bool)
    requires OneClientEach(clients)
    ensures OneClientEach(KeepClients(clients, p))
    decreases |clients|
  {
    if clients != [] {
      KeepClientsMembers(clients[1..], p);
      KeepOneClientEach(clients[1..], p);
      assert forall c :: c in clients[1..] ==> c.install != clients[0].install;
    }
  }

  /** Every operation keeps one client row per install. */
  lemma {:induction false} ExecKeepsOneClientEach(w: World, op: Op)
    requires OneClientEach(w.db.clients)
    ensures OneClientEach(Exec(w, op).db.clients)
  {
    hide KeepWhere, KeepClients, KeepKeys, CheckKey, TokenAt, FirstRefreshable;
    match op
    case DeleteClient(id, _) => KeepOneClientEach(w.db.clients, (x: Client) => x.id != id);
    case DeleteUser(user) => KeepOneClientEach(w.db.clients, (x: Client) => x.owner != user);
    case _ =>
  }

  /** The client row of an install that holds it. */
  lemma ClientOfIs(clients: seq<Client>, c: Client)
    requires OneClientEach(clients) && c in clients
    ensures ClientOf(clients, c.install).Some? && clients[ClientOf(clients, c.install).value] == c
  {
  }

  /** A registration succeeds if and only if the install is named, the key is usable and has an owner, the
      install is free or of that owner, and the save succeeds. */
  lemma {:induction false} RegistersIff(db: Db, q: Request, at: nat)
    requires OneClientEach(db.clients) && at < |db.keys|
    requires q.raw != "" && Holds(db.keys, q.raw, at)
    ensures var owner := db.keys[at].owner;
            Register(db, q).Done? <==>
              && q.install != "" && q.saves && KeyStands(db, at, q.checkedAt) && owner != ""
              && forall c :: c in db.clients && c.install == q.install ==> c.owner == owner
  {
    CheckedInOrder(db, q.raw, q.checkedAt, at);
    hide CheckKey, ClientOf, Holds;
    forall c | c in db.clients && c.install == q.install
      ensures ClientOf(db.clients, q.install).Some? && db.clients[ClientOf(db.clients, q.install).value] == c
    {
      ClientOfIs(db.clients, c);
    }
  }

  /** A successful registration is an exchange for the one client row of the install, which belongs to the
      owner of the key and is added under the new id when the install had none. */
  lemma {:induction false} RegisterLeaves(w: World, q: Request) returns (at: nat, c: Client, row: nat)
    requires Inv(w) && OneClientEach(w.db.clients) && Fresh(w, q) && Register(w.db, q).Done?
    ensures var after := Register(w.db, q).db;
            && CheckKey(w.db, q.raw, q.checkedAt) == Usable(at) && at < |w.db.keys|
            && c.install == q.install && c.owner == w.db.keys[at].owner
            && row < |after.tokens| && IsNewRow(after.tokens[row], w.db.keys[at].id, q.(client := c.id))
            && if exists d :: d in w.db.clients && d.install == q.install
               then c in w.db.clients && after.clients == w.db.clients
               else c.id == q.newClientId && after.clients == w.db.clients + [c]
    ensures Register(w.db, q).db == Exchanged(w.db, at, q.(client := c.id)).(clients := Register(w.db, q).db.clients)
  {
    hide CheckKey, IsNewRow, Inv;
    at := CheckKey(w.db, q.raw, q.checkedAt).at;
    var known := ClientOf(w.db.clients, q.install);
    c := if known.Some? then w.db.clients[known.value] else Client(q.newClientId, w.db.keys[at].owner, q.install);
    row := ExchangeLeaves(w, q.(client := c.id), at);
  }

  /** The token that a registration issues stands for the install, for 100 days from then. */
  lemma {:induction false} RegisteredStands(w: World, q: Request, now: int)
    requires Inv(w) && Fresh(w, q) && Register(w.db, q).Done?
    ensures Stands(Exec(w, DoRegister(q)), q.newToken, q.install, now) <==>
              q.newToken != "" && now - q.now < 100 * 24 * 3_600_000_000_000
  {
    hide CheckKey, Inv, Exchanged, ClientOf;
    var at := CheckKey(w.db, q.raw, q.checkedAt).at;
    var known := ClientOf(w.db.clients, q.install);
    var id := if known.Some? then w.db.clients[known.value].id else q.newClientId;
    var after := Exec(w, DoRegister(q)).db.tokens;
    var row := ExchangeLeaves(w, q.(client := id), at);
    var clients := if known.Some? then w.db.clients
        else w.db.clients + [Client(id, w.db.keys[at].owner, q.install)];
    SameTokens(w.db, clients, at, q.(client := id));
    assert Live(after[row], q.newToken, q.install);
    assert forall i :: 0 <= i < |after| && Live(after[i], q.newToken, q.install) ==> i == row;
  }

  /** The clients do not matter for what happens to the tokens. */
  lemma SameTokens(db: Db, clients: seq<Client>, at: nat, q: Request)
    requires at < |db.keys|
    ensures Exchanged(db.(clients := clients), at, q).tokens == Exchanged(db, at, q).tokens
  {
    hide FirstRefreshable;
  }
}
