/** Exchanging an API key for a client token, and validating, revoking and cleaning tokens
    (internal/server/admin_store.go).  Tables are sequences in the order their queries return rows.
    Hashes are kept as the text they were made from, which is what being collision-free means here;
    generated tokens and ids arrive as arguments and must be new. */
module TokenExchange {
  import opened Durations
  import opened Options
  import opened TimeText

  datatype KeyHash = KeyHash(text: string)
  datatype Lookup = NoDigest | Digest(text: string)
  datatype TokenHash = TokenHash(text: string)

  datatype Key = Key(id: string, owner: string, hash: KeyHash, lookup: Lookup,
                     active: bool, expires: Option<int>, maxUses: int, useCount: int)
  datatype Token = Token(id: string, hash: TokenHash, install: string, keyId: string, client: string,
                         lastActive: int, revoked: bool)
  datatype Client = Client(id: string, owner: string, install: string)

  datatype Db = Db(initialized: bool, activeUsers: set<string>, keys: seq<Key>, clients: seq<Client>,
      tokens: seq<Token>)

  datatype Error =
    | KeyInvalid | NotInitialized | UserDisabled | UserNotFound | KeyDisabled | KeyExpired | KeyExhausted
    | OwnerMismatch | EmptyInstall | TokenInvalid | TokenRevoked | InstallMismatch | TokenExpired | SaveFailed |
        NotFound

  // clientTokenInactivityTTL: 100 days in nanoseconds
  const TTL: int := 100 * DAY

  // ---------- finding and checking a key ----------

  /** Rows that candidateAPIKeysForRaw returns: those with the digest of the key, and when there are
      none, those without a digest. */
  predicate Candidate(keys: seq<Key>, raw: string, k: Key) {
    k.lookup == if exists i :: 0 <= i < |keys| && keys[i].lookup == Digest(raw) then Digest(raw) else NoDigest
  }

  predicate IsMatch(keys: seq<Key>, raw: string, k: Key) {
    Candidate(keys, raw, k) && k.hash == KeyHash(raw)
  }

  /** The first candidate whose hash fits. */
  function FindFrom(keys: seq<Key>, raw: string, i: nat): (r: Option<nat>)
    requires i <= |keys|
    ensures r.Some? ==> i <= r.value < |keys| && IsMatch(keys, raw, keys[r.value])
                        && forall j :: i <= j < r.value ==> !IsMatch(keys, raw, keys[j])
    ensures r.None? ==> forall j :: i <= j < |keys| ==> !IsMatch(keys, raw, keys[j])
    decreases |keys| - i
  {
    if i == |keys| then None
    else if IsMatch(keys, raw, keys[i]) then Some(i)
    else FindFrom(keys, raw, i + 1)
  }

  datatype KeyCheck = Usable(at: nat) | Refused(error: Error)

  function CheckMatched(db: Db, at: nat, now: int): KeyCheck
    requires at < |db.keys|
  {
    var k := db.keys[at];
    if k.owner !in db.activeUsers then Refused(UserDisabled)
    else if !k.active then Refused(KeyDisabled)
    else if k.expires.Some? && k.expires.value < now then Refused(KeyExpired)
    else if k.maxUses > 0 && k.useCount >= k.maxUses then Refused(KeyExhausted)
    else Usable(at)
  }

  /** validateClientKeyLocked. */
  function CheckKey(db: Db, raw: string, now: int): (r: KeyCheck)
    ensures r.Usable? ==> r.at < |db.keys| && db.keys[r.at].hash == KeyHash(raw)
  {
    if raw == "" then Refused(KeyInvalid)
    else if forall i :: 0 <= i < |db.keys| ==> !Candidate(db.keys, raw, db.keys[i]) then
      if |db.keys| > 0 || db.initialized then Refused(KeyInvalid) else Refused(NotInitialized)
    else
      var found := FindFrom(db.keys, raw, 0);
      if found.None? then Refused(KeyInvalid) else CheckMatched(db, found.value, now)
  }

  // ---------- exchanging ----------

  predicate Refreshable(t: Token, install: string, keyId: string, now: int) {
    t.install == install && !t.revoked && now - t.lastActive < TTL && t.keyId == keyId
  }

  function FirstRefreshable(tokens: seq<Token>, install: string, keyId: string, now: int, i: nat): (r: Option<nat>)
    requires i <= |tokens|
    ensures r.Some? ==> i <= r.value < |tokens| && Refreshable(tokens[r.value], install, keyId, now)
                        && forall j :: i <= j < r.value ==> !Refreshable(tokens[j], install, keyId, now)
    ensures r.None? ==> forall j :: i <= j < |tokens| ==> !Refreshable(tokens[j], install, keyId, now)
    decreases |tokens| - i
  {
    if i == |tokens| then None
    else if Refreshable(tokens[i], install, keyId, now) then Some(i)
    else FirstRefreshable(tokens, install, keyId, now, i + 1)
  }

  function RevokeInstall(tokens: seq<Token>, install: string): seq<Token> {
    seq(|tokens|, i requires 0 <= i < |tokens| => if tokens[i].install == install then tokens[i].(revoked := true)
        else tokens[i])
  }

  function ChargeKey(keys: seq<Key>, id: string): seq<Key> {
    seq(|keys|, i requires 0 <= i < |keys| => if keys[i].id == id then keys[i].(useCount := keys[i].useCount + 1)
        else keys[i])
  }

  datatype Request = Request(raw: string, install: string, client: string, now: int, checkedAt: int,
                             newToken: string, newTokenId: string, newClientId: string, saves: bool)

  /** exchangeTokenInTx: refresh the install's live token of this key, or charge the key, revoke the
      install's tokens and add a new one.  Without a key the token's key id is empty and nothing is
      charged. */
  function ExchangedFor(db: Db, found: Option<nat>, q: Request): Db
    requires found.Some? ==> found.value < |db.keys|
  {
    var keyId := if found.Some? then db.keys[found.value].id else "";
    var live := FirstRefreshable(db.tokens, q.install, keyId, q.now, 0);
    if live.Some? then
      var t := db.tokens[live.value];
      db.(tokens := db.tokens[live.value := t.(hash := TokenHash(q.newToken), lastActive := q.now, client := q.client)])
    else
      db.(keys := if found.Some? then ChargeKey(db.keys, keyId) else db.keys,
          tokens := RevokeInstall(db.tokens, q.install)
                    + [Token(q.newTokenId, TokenHash(q.newToken), q.install, keyId, q.client, q.now, false)])
  }

  function Exchanged(db: Db, at: nat, q: Request): Db
    requires at < |db.keys|
  {
    ExchangedFor(db, Some(at), q)
  }

  datatype Outcome = Done(db: Db, token: string) | Failed(error: Error)

  /** ExchangeToken. */
  function Exchange(db: Db, q: Request): Outcome {
    var check := CheckKey(db, q.raw, q.checkedAt);
    if check.Refused? then Failed(check.error)
    else if !q.saves then Failed(SaveFailed)
    else Done(Exchanged(db, check.at, q), q.newToken)
  }

  function ClientOf(clients: seq<Client>, install: string): (r: Option<nat>)
    ensures r.Some? ==> r.value < |clients| && clients[r.value].install == install
    ensures r.None? ==> forall i :: 0 <= i < |clients| ==> clients[i].install != install
  {
    if clients == [] then None
    else if clients[|clients| - 1].install == install then Some(|clients| - 1)
    else ClientOf(clients[..|clients| - 1], install)
  }

  /** RegisterClientAndExchangeToken. */
  function Register(db: Db, q: Request): Outcome {
    if q.install == "" then Failed(EmptyInstall)
    else
      var check := CheckKey(db, q.raw, q.checkedAt);
      if check.Refused? then Failed(check.error)
      else
        var owner := db.keys[check.at].owner;
        var known := ClientOf(db.clients, q.install);
        if owner == "" then Failed(UserNotFound)
        else if known.Some? && db.clients[known.value].owner != owner then Failed(OwnerMismatch)
        else
          var id := if known.Some? then db.clients[known.value].id else q.newClientId;
          var clients := if known.Some? then db.clients else db.clients + [Client(id, owner, q.install)];
          if !q.saves then Failed(SaveFailed)
          else Done(Exchanged(db.(clients := clients), check.at, q.(client := id)), q.newToken)
  }

  // ---------- using and ending tokens ----------

  function TokenAt(tokens: seq<Token>, hash: TokenHash, i: nat): (r: Option<nat>)
    requires i <= |tokens|
    ensures r.Some? ==> i <= r.value < |tokens| && tokens[r.value].hash == hash
                        && forall j :: i <= j < r.value ==> tokens[j].hash != hash
    ensures r.None? ==> forall j :: i <= j < |tokens| ==> tokens[j].hash != hash
    decreases |tokens| - i
  {
    if i == |tokens| then None
    else if tokens[i].hash == hash then Some(i)
    else TokenAt(tokens, hash, i + 1)
  }

  /** ValidateClientToken: a success stamps the row as active. */
  function Validate(db: Db, token: string, install: string, now: int, saves: bool): Outcome {
    if token == "" then Failed(TokenInvalid)
    else
      var found := TokenAt(db.tokens, TokenHash(token), 0);
      if found.None? then Failed(TokenInvalid)
      else
        var t := db.tokens[found.value];
        if t.revoked then Failed(TokenRevoked)
        else if t.install != install then Failed(InstallMismatch)
        else if now - t.lastActive >= TTL then Failed(TokenExpired)
        else if !saves then Failed(SaveFailed)
        else Done(db.(tokens := db.tokens[found.value := t.(lastActive := now)]), token)
  }

  function RevokeWhere(tokens: seq<Token>, p: Token -> bool): seq<Token> {
    seq(|tokens|, i requires 0 <= i < |tokens| => if p(tokens[i]) then tokens[i].(revoked := true) else tokens[i])
  }

  function KeepWhere(tokens: seq<Token>, p: Token -> bool): seq<Token> {
    if tokens == [] then []
    else if p(tokens[0]) then [tokens[0]] + KeepWhere(tokens[1..], p)
    else KeepWhere(tokens[1..], p)
  }

  // ---------- runs ----------

  /** The database with what was issued: every token text so far, and the last one per install. */
  datatype World = World(db: Db, issued: set<string>, latest: map<string, string>)

  datatype Op =
    | DoRegister(q: Request)
    | DoExchange(q: Request)
    | DoValidate(token: string, install: string, now: int, saves: bool)
    | Touch(tokenId: string, now: int)
    | RevokeToken(tokenId: string)
    | RevokeByKey(keyId: string)
    | Clean(now: int)
    | DeleteClient(clientId: string, install: string)
    | AddKey(key: Key)
    | SetKeyActive(keyId: string, active: bool)
    | DeleteKey(keyId: string)
    | DeleteUser(user: string)
    | SetUsers(users: set<string>)

  /** Generated values are new; a key is created with no uses and a limit that is not negative. */
  ghost predicate Allowed(w: World, op: Op) {
    match op
    case DoRegister(q) => Fresh(w, q)
    case DoExchange(q) => Fresh(w, q)
    case AddKey(k) => k.useCount == 0 && k.maxUses >= 0 && forall i :: 0 <= i < |w.db.keys| ==> w.db.keys[i].id != k.id
    case _ => true
  }

  ghost predicate Fresh(w: World, q: Request) {
    && q.newToken !in w.issued
    && forall i :: 0 <= i < |w.db.tokens| ==> w.db.tokens[i].id != q.newTokenId
  }

  function Issue(w: World, o: Outcome, install: string): World {
    if o.Done? then World(o.db, w.issued + {o.token}, w.latest[install := o.token]) else w
  }

  function Exec(w: World, op: Op): World {
    var db := w.db;
    match op
    case DoRegister(q) => Issue(w, Register(db, q), q.install)
    case DoExchange(q) => Issue(w, Exchange(db, q), q.install)
    case DoValidate(token, install, now, saves) =>
      var o := Validate(db, token, install, now, saves);
      if o.Done? then w.(db := o.db) else w
    case Touch(id, now) =>
      w.(db := db.(tokens := seq(|db.tokens|, i requires 0 <= i < |db.tokens| =>
                                   if db.tokens[i].id == id then db.tokens[i].(lastActive := now) else db.tokens[i])))
    case RevokeToken(id) => w.(db := db.(tokens := RevokeWhere(db.tokens, (t: Token) => t.id == id)))
    case RevokeByKey(id) => w.(db := db.(tokens := RevokeWhere(db.tokens, (t: Token) => t.keyId == id && !t.revoked)))
    case Clean(now) => w.(db := db.(tokens := Cleaned(db.tokens, now)))
    case DeleteClient(id, install) =>
      w.(db := db.(tokens := KeepWhere(db.tokens, (t: Token) => !(t.client == id || t.install == install)),
                   clients := KeepClients(db.clients, (c: Client) => c.id != id)))
    case AddKey(k) => w.(db := db.(keys := db.keys + [k]))
    case SetKeyActive(id, active) =>
      w.(db := db.(keys := seq(|db.keys|, i requires 0 <= i < |db.keys| =>
                                 if db.keys[i].id == id then db.keys[i].(active := active) else db.keys[i])))
    case DeleteKey(id) => w.(db := db.(keys := KeepKeys(db.keys, (k: Key) => k.id != id)))
    case DeleteUser(user) =>
      w.(db := db.(activeUsers := db.activeUsers - {user},
                   tokens := KeepWhere(db.tokens, (t: Token) => !TokenOfUser(t, db.clients, user)),
                   clients := KeepClients(db.clients, (c: Client) => c.owner != user),
                   keys := KeepKeys(db.keys, (k: Key) => k.owner != user)))
    case SetUsers(users) => w.(db := db.(activeUsers := users))
  }

  /** CleanExpiredTokens: the instants are compared as the texts that the table holds. */
  function Cleaned(tokens: seq<Token>, now: int): seq<Token> {
    KeepWhere(tokens, (t: Token) => !(t.revoked || TextAtMost(t.lastActive, now - TTL)))
  }

  /** A token of a client of the user, by client or by install. */
  predicate TokenOfUser(t: Token, clients: seq<Client>, user: string) {
    exists i :: 0 <= i < |clients| && clients[i].owner == user
                && (t.client == clients[i].id || (t.install != "" && t.install == clients[i].install))
  }

  function KeepClients(clients: seq<Client>, p: Client -> bool): seq<Client> {
    if clients == [] then []
    else if p(clients[0]) then [clients[0]] + KeepClients(clients[1..], p)
    else KeepClients(clients[1..], p)
  }

  function KeepKeys(keys: seq<Key>, p: Key -> bool): seq<Key> {
    if keys == [] then []
    else if p(keys[0]) then [keys[0]] + KeepKeys(keys[1..], p)
    else KeepKeys(keys[1..], p)
  }

  // ---------- the invariant ----------

  ghost predicate KeysOk(keys: seq<Key>) {
    && KeysDiffer(keys)
    && (forall i :: 0 <= i < |keys| ==>
        0 <= keys[i].useCount && (keys[i].maxUses > 0 ==> keys[i].useCount <= keys[i].maxUses))
  }

  ghost predicate TokensOk(tokens: seq<Token>, issued: set<string>, latest: map<string, string>) {
    && TokensDiffer(tokens)
    && (forall i :: 0 <= i < |tokens| ==> tokens[i].hash.text in issued)
    && (forall i :: 0 <= i < |tokens| && !tokens[i].revoked ==>
          tokens[i].install in latest && tokens[i].hash == TokenHash(latest[tokens[i].install]))
  }

  ghost predicate Inv(w: World) {
    KeysOk(w.db.keys) && TokensOk(w.db.tokens, w.issued, w.latest)
  }

  /** Rewriting rows in place, keeping ids, hashes and installs and only revoking, keeps the tokens in order. */
  lemma InPlaceKeepsTokens(before: seq<Token>, after: seq<Token>, issued: set<string>, latest: map<string, string>)
    requires TokensOk(before, issued, latest) && |after| == |before|
    requires forall i :: 0 <= i < |before| ==>
               && after[i].id == before[i].id && after[i].hash == before[i].hash &&
                   after[i].install == before[i].install
               && (before[i].revoked ==> after[i].revoked)
    ensures TokensOk(after, issued, latest)
  {
  }

  lemma {:induction false} KeepMembers(tokens: seq<Token>, p: Token -> bool)
    ensures forall t :: t in KeepWhere(tokens, p) <==> t in tokens && p(t)
    decreases |tokens|
  {
    if tokens != [] {
      KeepMembers(tokens[1..], p);
      assert forall t :: t in tokens <==> t == tokens[0] || t in tokens[1..];
    }
  }

  ghost predicate TokensDiffer(tokens: seq<Token>) {
    forall i, j :: 0 <= i < j < |tokens| ==> tokens[i].id != tokens[j].id && tokens[i].hash != tokens[j].hash
  }

  lemma {:induction false} KeepDiffers(tokens: seq<Token>, p: Token -> bool)
    requires TokensDiffer(tokens)
    ensures TokensDiffer(KeepWhere(tokens, p))
    decreases |tokens|
  {
    if tokens != [] {
      KeepMembers(tokens[1..], p);
      KeepDiffers(tokens[1..], p);
      assert forall t :: t in tokens[1..] ==> t.id != tokens[0].id && t.hash != tokens[0].hash;
    }
  }

  lemma KeepKeepsTokens(tokens: seq<Token>, p: Token -> bool, issued: set<string>, latest: map<string, string>)
    requires TokensOk(tokens, issued, latest)
    ensures TokensOk(KeepWhere(tokens, p), issued, latest)
  {
    KeepMembers(tokens, p);
    KeepDiffers(tokens, p);
    hide KeepWhere;
    var kept := KeepWhere(tokens, p);
    assert forall i :: 0 <= i < |kept| ==> kept[i] in tokens;
  }

  lemma {:induction false} KeepKeysMembers(keys: seq<Key>, p: Key -> bool)
    ensures forall k :: k in KeepKeys(keys, p) <==> k in keys && p(k)
    decreases |keys|
  {
    if keys != [] {
      KeepKeysMembers(keys[1..], p);
      assert forall k :: k in keys <==> k == keys[0] || k in keys[1..];
    }
  }

  ghost predicate KeysDiffer(keys: seq<Key>) {
    forall i, j :: 0 <= i < j < |keys| ==> keys[i].id != keys[j].id
  }

  lemma {:induction false} KeepKeysDiffers(keys: seq<Key>, p: Key -> bool)
    requires KeysDiffer(keys)
    ensures KeysDiffer(KeepKeys(keys, p))
    decreases |keys|
  {
    if keys != [] {
      KeepKeysMembers(keys[1..], p);
      KeepKeysDiffers(keys[1..], p);
      assert forall k :: k in keys[1..] ==> k.id != keys[0].id;
    }
  }

  lemma KeepKeysKeeps(keys: seq<Key>, p: Key -> bool)
    requires KeysOk(keys)
    ensures KeysOk(KeepKeys(keys, p))
  {
    KeepKeysMembers(keys, p);
    KeepKeysDiffers(keys, p);
    hide KeepKeys;
    var kept := KeepKeys(keys, p);
    assert forall i :: 0 <= i < |kept| ==> kept[i] in keys;
  }

  /** The key that the check found usable is the key that is charged, by exactly one and only when no
      live token is refreshed; it had a use left. */
  lemma {:induction false} CheckedKeyIsCharged(db: Db, at: nat, q: Request)
    requires KeysOk(db.keys) && CheckKey(db, q.raw, q.checkedAt) == Usable(at)
    ensures at < |db.keys| && db.keys[at].hash == KeyHash(q.raw)
    ensures db.keys[at].maxUses > 0 ==> db.keys[at].useCount < db.keys[at].maxUses
    ensures var refreshed := FirstRefreshable(db.tokens, q.install, db.keys[at].id, q.now, 0).Some?;
            Exchanged(db, at, q).keys ==
              if refreshed then db.keys else db.keys[at := db.keys[at].(useCount := db.keys[at].useCount + 1)]
  {
    assert ChargeKey(db.keys, db.keys[at].id) == db.keys[at := db.keys[at].(useCount := db.keys[at].useCount + 1)];
  }

  lemma {:induction false} ExchangedKeepsInv(w: World, clients: seq<Client>, at: nat, q: Request)
    requires Inv(w) && Fresh(w, q) && CheckKey(w.db, q.raw, q.checkedAt) == Usable(at)
    ensures var db := Exchanged(w.db.(clients := clients), at, q);
            Inv(World(db, w.issued + {q.newToken}, w.latest[q.install := q.newToken]))
  {
    hide CheckKey;
    CheckedKeyIsCharged(w.db, at, q);
    var db := Exchanged(w.db.(clients := clients), at, q);
    assert db.keys == Exchanged(w.db, at, q).keys && db.tokens == Exchanged(w.db, at, q).tokens;
    ExchangedTokensOk(w, at, q);
  }

  lemma RefreshTokensOk(before: seq<Token>, at: nat, t: Token, text: string, issued: set<string>, latest: map<string,
      string>)
    requires TokensOk(before, issued, latest) && text !in issued && at < |before| && !before[at].revoked
    requires t.id == before[at].id && t.install == before[at].install && t.hash == TokenHash(text)
    ensures TokensOk(before[at := t], issued + {text}, latest[t.install := text])
  {
    var after := before[at := t];
    assert TokensDiffer(after) by {
      assert forall i :: 0 <= i < |before| ==> before[i].hash.text != text;
    }
    forall i | 0 <= i < |after| && !after[i].revoked && i != at ensures after[i].install != t.install {
      assert before[i].hash != before[at].hash;
    }
  }

  lemma IssueTokensOk(before: seq<Token>, install: string, t: Token, text: string, issued: set<string>,
      latest: map<string, string>)
    requires TokensOk(before, issued, latest) && text !in issued && t.install == install && t.hash == TokenHash(text)
    requires forall i :: 0 <= i < |before| ==> before[i].id != t.id
    ensures TokensOk(RevokeInstall(before, install) + [t], issued + {text}, latest[install := text])
  {
    assert forall i :: 0 <= i < |before| ==> before[i].hash.text != text;
  }

  lemma ExchangedTokensOk(w: World, at: nat, q: Request)
    requires TokensOk(w.db.tokens, w.issued, w.latest) && Fresh(w, q) && at < |w.db.keys|
    ensures TokensOk(Exchanged(w.db, at, q).tokens, w.issued + {q.newToken}, w.latest[q.install := q.newToken])
  {
    var before, after := w.db.tokens, Exchanged(w.db, at, q).tokens;
    var live := FirstRefreshable(before, q.install, w.db.keys[at].id, q.now, 0);
    hide TokensOk, RevokeInstall;
    if live.Some? {
      RefreshTokensOk(before, live.value, after[live.value], q.newToken, w.issued, w.latest);
    } else {
      IssueTokensOk(before, q.install, after[|before|], q.newToken, w.issued, w.latest);
    }
  }

  /** Every operation keeps the invariant. */
  lemma {:induction false} ExecKeepsInv(w: World, op: Op)
    requires Inv(w) && Allowed(w, op)
    ensures Inv(Exec(w, op))
  {
    hide CheckKey, Exchanged, KeysOk, TokensOk;
    match op
    case DoRegister(q) =>
      var check := CheckKey(w.db, q.raw, q.checkedAt);
      if Register(w.db, q).Done? {
        var known := ClientOf(w.db.clients, q.install);
        var id := if known.Some? then w.db.clients[known.value].id else q.newClientId;
        var clients := if known.Some? then w.db.clients
            else w.db.clients + [Client(id, w.db.keys[check.at].owner, q.install)];
        ExchangedKeepsInv(w, clients, check.at, q.(client := id));
      }
    case DoExchange(q) =>
      var check := CheckKey(w.db, q.raw, q.checkedAt);
      if check.Usable? {
        ExchangedKeepsInv(w, w.db.clients, check.at, q);
        assert w.db.(clients := w.db.clients) == w.db;
      }
    case DoValidate(_, _, _, _) => InPlaceKeepsTokens(w.db.tokens, Exec(w, op).db.tokens, w.issued, w.latest);
    case Touch(_, _) => InPlaceKeepsTokens(w.db.tokens, Exec(w, op).db.tokens, w.issued, w.latest);
    case RevokeToken(_) => InPlaceKeepsTokens(w.db.tokens, Exec(w, op).db.tokens, w.issued, w.latest);
    case RevokeByKey(_) => InPlaceKeepsTokens(w.db.tokens, Exec(w, op).db.tokens, w.issued, w.latest);
    case Clean(now) =>
      KeepKeepsTokens(w.db.tokens, (t: Token) => !(t.revoked || TextAtMost(t.lastActive, now - TTL)), w.issued,
          w.latest);
    case DeleteClient(id, install) =>
      KeepKeepsTokens(w.db.tokens, (t: Token) => !(t.client == id || t.install == install), w.issued, w.latest);
    case DeleteKey(id) => KeepKeysKeeps(w.db.keys, (k: Key) => k.id != id);
    case DeleteUser(user) =>
      KeepKeepsTokens(w.db.tokens, (t: Token) => !TokenOfUser(t, w.db.clients, user), w.issued, w.latest);
      KeepKeysKeeps(w.db.keys, (k: Key) => k.owner != user);
    case _ => KeyChangeKeepsInv(w, op);
  }

  lemma KeyChangeKeepsInv(w: World, op: Op)
    requires Inv(w) && Allowed(w, op) && (op.AddKey? || op.SetKeyActive? || op.SetUsers?)
    ensures Inv(Exec(w, op))
  {
    hide TokensOk;
  }

  ghost predicate Legal(w: World, ops: seq<Op>)
    decreases |ops|
  {
    ops == [] || (Allowed(w, ops[0]) && Legal(Exec(w, ops[0]), ops[1..]))
  }

  ghost function Run(w: World, ops: seq<Op>): World
    requires Legal(w, ops)
    decreases |ops|
  {
    if ops == [] then w else Run(Exec(w, ops[0]), ops[1..])
  }

  lemma {:induction false} RunKeepsInv(w: World, ops: seq<Op>)
    requires Inv(w) && Legal(w, ops)
    ensures Inv(Run(w, ops))
    decreases |ops|
  {
    hide Exec, Allowed, Inv;
    if ops != [] {
      ExecKeepsInv(w, ops[0]);
      RunKeepsInv(Exec(w, ops[0]), ops[1..]);
    }
  }

  /** In every run from an empty database: no key with a limit is used above it, no install has two
      unrevoked tokens, and a token that validates for an install is the last one issued to it. */
  lemma {:induction false} RunsAreSafe(initialized: bool, users: set<string>, ops: seq<Op>,
                                       token: string, install: string, now: int)
    requires Legal(World(Db(initialized, users, [], [], []), {}, map[]), ops)
    ensures var w := Run(World(Db(initialized, users, [], [], []), {}, map[]), ops);
            && (forall i :: 0 <= i < |w.db.keys| && w.db.keys[i].maxUses > 0 ==>
                w.db.keys[i].useCount <= w.db.keys[i].maxUses)
            && (forall i, j :: 0 <= i < j < |w.db.tokens| && !w.db.tokens[i].revoked && !w.db.tokens[j].revoked ==>
                  w.db.tokens[i].install != w.db.tokens[j].install)
            && (Validate(w.db, token, install, now, true).Done? ==> install in w.latest && w.latest[install] == token)
  {
    var w0 := World(Db(initialized, users, [], [], []), {}, map[]);
    assert Inv(w0);
    RunKeepsInv(w0, ops);
    hide Run, Legal;
    var w := Run(w0, ops);
    forall i, j | 0 <= i < j < |w.db.tokens| && !w.db.tokens[i].revoked && !w.db.tokens[j].revoked
      ensures w.db.tokens[i].install != w.db.tokens[j].install
    {
      assert w.db.tokens[i].hash != w.db.tokens[j].hash;
    }
  }

  /** Once a newer token is issued to an install, no older token text validates for it ever again,
      whatever happens in between short of issuing that text again, which freshness rules out. */
  lemma {:induction false} SupersededTokensStayDead(w: World, ops: seq<Op>, token: string, install: string, now: int)
    requires Inv(w) && Legal(w, ops)
    requires token in w.issued && install in w.latest && w.latest[install] != token
    ensures Validate(Run(w, ops).db, token, install, now, true).Failed?
    decreases |ops|
  {
    hide TokensOk, KeysOk, CheckKey, Exchanged;
    if ops == [] {
      OnlyLatestValidates(w, token, install, now);
    } else {
      ExecKeepsInv(w, ops[0]);
      LatestMoves(w, ops[0], token, install);
      SupersededTokensStayDead(Exec(w, ops[0]), ops[1..], token, install, now);
    }
  }

  lemma OnlyLatestValidates(w: World, token: string, install: string, now: int)
    requires Inv(w)
    ensures Validate(w.db, token, install, now, true).Done? ==> install in w.latest && w.latest[install] == token
  {
  }

  lemma {:induction false} LatestMoves(w: World, op: Op, token: string, install: string)
    requires Inv(w) && Allowed(w, op) && token in w.issued && install in w.latest && w.latest[install] != token
    ensures var v := Exec(w, op); token in v.issued && install in v.latest && v.latest[install] != token
  {
    hide Inv, CheckKey, Exchanged;
  }

  /** Cleaning removes the revoked and the expired tokens and no other, except that for blurred pairs of
      instants, which lie within one second, the live token goes and the expired one stays. */
  lemma {:induction false} CleanedExactly(tokens: seq<Token>, t: Token, now: int)
    requires t in tokens
    ensures t in Cleaned(tokens, now) <==>
              !t.revoked && ((now - t.lastActive < TTL) != Blurred(t.lastActive, now - TTL))
  {
    hide TextAtMost, Blurred, KeepWhere;
    KeepMembers(tokens, (x: Token) => !(x.revoked || TextAtMost(x.lastActive, now - TTL)));
    TextOrder(t.lastActive, now - TTL);
  }

  /** A token with ten milliseconds left to live can be cleaned away. */
  lemma LiveTokenCanBeCleaned(t: Token)
    requires !t.revoked && t.lastActive == 510_000_000
    ensures var now := TTL + 500_000_000; now - t.lastActive < TTL && t !in Cleaned([t], now)
  {
    hide TextAtMost, Blurred, KeepWhere;
    var now := TTL + 500_000_000;
    LaterCanComeFirst();
    TextOrder(510_000_000, 500_000_000);
    assert now - TTL == 500_000_000;
    CleanedExactly([t], t, now);
  }

  /** A token just issued validates for its install, until the inactivity limit. */
  lemma {:induction false} IssuedTokenValidates(w: World, q: Request, now: int)
    requires Inv(w) && Fresh(w, q) && q.newToken != "" && Exchange(w.db, q).Done? && now - q.now < TTL
    ensures Validate(Exchange(w.db, q).db, q.newToken, q.install, now, true).Done?
  {
    hide CheckKey;
    var at := CheckKey(w.db, q.raw, q.checkedAt).at;
    var before, after := w.db.tokens, Exchanged(w.db, at, q).tokens;
    var live := FirstRefreshable(before, q.install, w.db.keys[at].id, q.now, 0);
    var row := if live.Some? then live.value else |before|;
    assert after[row].hash == TokenHash(q.newToken) && !after[row].revoked && after[row].install == q.install &&
        after[row].lastActive == q.now;
    assert forall i :: 0 <= i < |after| && i != row ==> after[i].hash.text in w.issued;
    var found := TokenAt(after, TokenHash(q.newToken), 0);
  }

  // ---------- refreshing without consuming a use ----------

  /** The key at `at` passes every check of validateClientKeyLocked. */
  predicate KeyStands(db: Db, at: nat, now: int)
    requires at < |db.keys|
  {
    var k := db.keys[at];
    && k.owner in db.activeUsers && k.active
    && (k.expires.Some? ==> now <= k.expires.value)
    && (k.maxUses > 0 ==> k.useCount < k.maxUses)
  }

  /** The install holds a token of the key at `at` that is not revoked and not expired. */
  ghost predicate HoldsLiveToken(db: Db, at: nat, q: Request)
    requires at < |db.keys|
  {
    exists i :: 0 <= i < |db.tokens| && Refreshable(db.tokens[i], q.install, db.keys[at].id, q.now)
  }

  /** The comment above ExchangeToken promises an install with a valid token of the same key a refreshed
      token without consuming a use.  The code keeps that promise exactly when the key would also pass
      the checks for a new token, a use left among them, and the transaction is saved. */
  lemma {:induction false} FreeRefreshIffKeyStands(db: Db, at: nat, q: Request)
    requires q.raw != "" && FindFrom(db.keys, q.raw, 0) == Some(at) && HoldsLiveToken(db, at, q)
    ensures (Exchange(db, q).Done? && Exchange(db, q).db.keys == db.keys) <==> KeyStands(db, at, q.checkedAt) && q.saves
    ensures KeyStands(db, at, q.checkedAt) && q.saves ==> |Exchange(db, q).db.tokens| == |db.tokens|
  {
    hide FindFrom;
    assert Candidate(db.keys, q.raw, db.keys[at]);
  }

  /** The same for registration, where the install must also be named and be free or of the key's owner. */
  lemma {:induction false} RegisterRefreshIffKeyStands(db: Db, at: nat, q: Request)
    requires q.raw != "" && FindFrom(db.keys, q.raw, 0) == Some(at) && HoldsLiveToken(db, at, q)
    ensures var known := ClientOf(db.clients, q.install);
            (Register(db, q).Done? && Register(db, q).db.keys == db.keys) <==>
            && KeyStands(db, at, q.checkedAt) && q.saves && q.install != "" && db.keys[at].owner != ""
            && (known.Some? ==> db.clients[known.value].owner == db.keys[at].owner)
  {
    hide FindFrom, ClientOf;
    assert Candidate(db.keys, q.raw, db.keys[at]);
  }

  /** A key without a use left is refused, whether or not the install holds a live token of it. */
  lemma {:induction false} ExhaustedKeyIsNotRefreshed(db: Db, at: nat, q: Request)
    requires q.raw != "" && FindFrom(db.keys, q.raw, 0) == Some(at)
    requires var k := db.keys[at];
             k.owner in db.activeUsers && k.active && (k.expires.Some? ==> q.checkedAt <= k.expires.value) &&
                 0 < k.maxUses <= k.useCount
    ensures Exchange(db, q) == Failed(KeyExhausted)
    ensures q.install != "" ==> Register(db, q) == Failed(KeyExhausted)
  {
    hide FindFrom;
    assert Candidate(db.keys, q.raw, db.keys[at]);
  }

  /** Such a key comes up in practice: with a key for one use, the same install exchanges twice and the
      second exchange is refused although the token of the first is live. */
  lemma {:induction false} SecondExchangeIsRefused() returns (w: World, ops: seq<Op>, again: Request)
    ensures w == World(Db(true, {"u"}, [], [], []), {}, map[]) && Legal(w, ops)
    ensures var v := Run(w, ops);
            && Fresh(v, again) && FindFrom(v.db.keys, again.raw, 0) == Some(0) && HoldsLiveToken(v.db, 0, again)
            && FirstRefreshable(v.db.tokens, again.install, v.db.keys[0].id, again.now, 0) == Some(0)
            && Exchange(v.db, again) == Failed(KeyExhausted)
  {
    w := World(Db(true, {"u"}, [], [], []), {}, map[]);
    var key := Key("k", "u", KeyHash("r"), Digest("r"), true, None, 1, 0);
    var token := Token("1", TokenHash("t1"), "i", "k", "c", 0, false);
    var q := Request("r", "i", "c", 0, 0, "t1", "1", "c", true);
    again := Request("r", "i", "c", 1, 1, "t2", "2", "c", true);
    ops := [AddKey(key), DoExchange(q)];
    var w1 := World(Db(true, {"u"}, [key], [], []), {}, map[]);
    var v := World(Db(true, {"u"}, [key.(useCount := 1)], [], [token]), {"t1"}, map["i" := "t1"]);
    hide FindFrom;
    FirstOfOne(w1.db.keys, "r");
    FirstOfOne(v.db.keys, "r");
    assert Exec(w, ops[0]) == w1;
    FirstUse(w1, v, q, key, token);
    RunTwo(w, w1, v, ops);
    assert Refreshable(v.db.tokens[0], "i", "k", 1);
    ExhaustedKeyIsNotRefreshed(v.db, 0, again);
  }

  lemma FirstUse(w: World, v: World, q: Request, key: Key, token: Token)
    requires w.db.keys == [key] && w.db.tokens == [] && w.latest == map[] && w.issued == {}
    requires key.active && key.expires == None && key.useCount < key.maxUses && key.owner in w.db.activeUsers
    requires q.raw != "" && FindFrom(w.db.keys, q.raw, 0) == Some(0) && q.saves
    requires token == Token(q.newTokenId, TokenHash(q.newToken), q.install, key.id, q.client, q.now, false)
    requires v == World(w.db.(keys := [key.(useCount := key.useCount + 1)], tokens := [token]),
                        {q.newToken}, map[q.install := q.newToken])
    ensures Allowed(w, DoExchange(q)) && Exec(w, DoExchange(q)) == v
  {
    hide FindFrom;
    assert Candidate(w.db.keys, q.raw, w.db.keys[0]);
    assert ChargeKey(w.db.keys, key.id) == [key.(useCount := key.useCount + 1)];
    assert RevokeInstall(w.db.tokens, q.install) + [token] == [token];
    assert w.latest[q.install := q.newToken] == map[q.install := q.newToken];
    assert w.issued + {q.newToken} == {q.newToken};
  }

  lemma RunTwo(w: World, w1: World, v: World, ops: seq<Op>)
    requires |ops| == 2 && Allowed(w, ops[0]) && Exec(w, ops[0]) == w1 && Allowed(w1, ops[1]) && Exec(w1, ops[1]) == v
    ensures Legal(w, ops) && Run(w, ops) == v
  {
    hide Exec, Allowed;
    assert ops[1..] == [ops[1]] && ops[1..][1..] == [];
    assert Legal(w1, ops[1..]) && Run(w1, ops[1..]) == v;
  }

  lemma FirstOfOne(keys: seq<Key>, raw: string)
    requires |keys| == 1 && keys[0].lookup == Digest(raw) && keys[0].hash == KeyHash(raw)
    ensures FindFrom(keys, raw, 0) == Some(0) && Candidate(keys, raw, keys[0])
  {
    assert keys[0].lookup == Digest(raw);
  }

  // ---------- the store, with its row loops ----------

  ghost predicate AscendingRows(rows: seq<nat>, keys: seq<Key>, lookup: Lookup) {
    && (forall i, j :: 0 <= i < j < |rows| ==> rows[i] < rows[j])
    && (forall i :: 0 <= i < |rows| ==> rows[i] < |keys| && keys[rows[i]].lookup == lookup)
    && (forall k :: 0 <= k < |keys| && keys[k].lookup == lookup ==> k in rows)
  }

  /** loadAPIKeysByLookupDigest: the rows with this digest, in table order. */
  method LoadByDigest(keys: seq<Key>, lookup: Lookup) returns (rows: seq<nat>)
    ensures AscendingRows(rows, keys, lookup)
  {
    rows := [];
    for k := 0 to |keys|
      invariant forall i, j :: 0 <= i < j < |rows| ==> rows[i] < rows[j]
      invariant forall i :: 0 <= i < |rows| ==> rows[i] < k && keys[rows[i]].lookup == lookup
      invariant forall n :: 0 <= n < k && keys[n].lookup == lookup ==> n in rows
    {
      if keys[k].lookup == lookup {
        rows := rows + [k];
      }
    }
  }

  /** All candidates for a raw key, in table order. */
  ghost predicate CandidateRows(rows: seq<nat>, keys: seq<Key>, raw: string) {
    && (forall i, j :: 0 <= i < j < |rows| ==> rows[i] < rows[j])
    && (forall i :: 0 <= i < |rows| ==> rows[i] < |keys| && Candidate(keys, raw, keys[rows[i]]))
    && (forall k :: 0 <= k < |keys| && Candidate(keys, raw, keys[k]) ==> k in rows)
  }

  /** candidateAPIKeysForRaw. */
  method CandidateKeys(keys: seq<Key>, raw: string) returns (rows: seq<nat>)
    ensures CandidateRows(rows, keys, raw)
  {
    rows := LoadByDigest(keys, Digest(raw));
    if |rows| > 0 {
      assert keys[rows[0]].lookup == Digest(raw);
      return;
    }
    rows := LoadByDigest(keys, NoDigest);
  }

  /** findKeyByRawLocked: the first candidate whose hash fits. */
  method FindKeyByRaw(keys: seq<Key>, raw: string) returns (r: Option<nat>, anyCandidate: bool)
    ensures r == FindFrom(keys, raw, 0)
    ensures anyCandidate <==> exists i :: 0 <= i < |keys| && Candidate(keys, raw, keys[i])
  {
    hide Candidate, FindFrom;
    var rows := CandidateKeys(keys, raw);
    anyCandidate := |rows| > 0;
    assert anyCandidate ==> Candidate(keys, raw, keys[rows[0]]);
    for i := 0 to |rows|
      invariant forall n :: 0 <= n < i ==> keys[rows[n]].hash != KeyHash(raw)
    {
      if keys[rows[i]].hash == KeyHash(raw) {
        FirstIsFound(keys, raw, rows, i);
        return Some(rows[i]), anyCandidate;
      }
    }
    r := None;
  }

  lemma FirstIsFound(keys: seq<Key>, raw: string, rows: seq<nat>, i: nat)
    requires CandidateRows(rows, keys, raw)
    requires i < |rows| && keys[rows[i]].hash == KeyHash(raw)
    requires forall n :: 0 <= n < i ==> keys[rows[n]].hash != KeyHash(raw)
    ensures FindFrom(keys, raw, 0) == Some(rows[i])
  {
    hide Candidate, FindFrom;
    assert IsMatch(keys, raw, keys[rows[i]]);
    forall j | 0 <= j < rows[i] ensures !IsMatch(keys, raw, keys[j]) {
      if Candidate(keys, raw, keys[j]) {
        var n :| 0 <= n < |rows| && rows[n] == j;
        assert n < i;
      }
    }
  }

  class AdminStore {
    var db: Db

    constructor (db: Db)
      ensures this.db == db
    {
      this.db := db;
    }

    method ValidateClientKey(raw: string, now: int) returns (r: KeyCheck)
      ensures r == CheckKey(db, raw, now)
    {
      hide Candidate;
      if raw == "" {
        return Refused(KeyInvalid);
      }
      var found, anyCandidate := FindKeyByRaw(db.keys, raw);
      if !anyCandidate {
        if |db.keys| > 0 || db.initialized {
          return Refused(KeyInvalid);
        }
        return Refused(NotInitialized);
      }
      if found.None? {
        return Refused(KeyInvalid);
      }
      return CheckMatched(db, found.value, now);
    }

    /** exchangeTokenInTx. */
    method ExchangeInTx(q: Request)
      modifies this
      ensures db == ExchangedFor(old(db), FindFrom(old(db).keys, q.raw, 0), q)
    {
      var found, anyCandidate := FindKeyByRaw(db.keys, q.raw);
      var keyId := if found.Some? then db.keys[found.value].id else "";
      for i := 0 to |db.tokens|
        invariant db == old(db)
        invariant FirstRefreshable(db.tokens, q.install, keyId, q.now, 0) ==
                  FirstRefreshable(db.tokens, q.install, keyId, q.now, i)
      {
        var t := db.tokens[i];
        if t.install == q.install && !t.revoked && q.now - t.lastActive < TTL && t.keyId == keyId {
          db := db.(tokens := db.tokens[i := t.(hash := TokenHash(q.newToken), lastActive := q.now,
              client := q.client)]);
          return;
        }
      }
      if found.Some? {
        db := db.(keys := ChargeKey(db.keys, keyId));
      }
      db := db.(tokens := RevokeInstall(db.tokens, q.install)
                          + [Token(q.newTokenId, TokenHash(q.newToken), q.install, keyId, q.client, q.now, false)]);
    }

    /** ExchangeToken: nothing changes unless it succeeds. */
    method ExchangeToken(q: Request) returns (r: Option<Error>)
      modifies this
      ensures var o := Exchange(old(db), q);
              if o.Done? then r == None && db == o.db else r == Some(o.error) && db == old(db)
    {
      var check := ValidateClientKey(q.raw, q.checkedAt);
      if check.Refused? {
        return Some(check.error);
      }
      var before := db;
      ExchangeInTx(q);
      if !q.saves {
        db := before;
        return Some(SaveFailed);
      }
      return None;
    }

    method RegisterAndExchange(q: Request) returns (r: Option<Error>)
      modifies this
      ensures var o := Register(old(db), q);
              if o.Done? then r == None && db == o.db else r == Some(o.error) && db == old(db)
    {
      hide ExchangedFor;
      if q.install == "" {
        return Some(EmptyInstall);
      }
      var check := ValidateClientKey(q.raw, q.checkedAt);
      if check.Refused? {
        return Some(check.error);
      }
      var before := db;
      var owner := db.keys[check.at].owner;
      var known := ClientOf(db.clients, q.install);
      if owner == "" {
        return Some(UserNotFound);
      }
      if known.Some? && db.clients[known.value].owner != owner {
        return Some(OwnerMismatch);
      }
      var id := q.newClientId;
      if known.Some? {
        id := db.clients[known.value].id;
      } else {
        db := db.(clients := db.clients + [Client(id, owner, q.install)]);
      }
      ExchangeInTx(q.(client := id));
      if !q.saves {
        db := before;
        return Some(SaveFailed);
      }
      return None;
    }

    method ValidateClientToken(token: string, install: string, now: int, saves: bool) returns (r: Option<Error>)
      modifies this
      ensures var o := Validate(old(db), token, install, now, saves);
              if o.Done? then r == None && db == o.db else r == Some(o.error) && db == old(db)
    {
      if token == "" {
        return Some(TokenInvalid);
      }
      for i := 0 to |db.tokens|
        invariant db == old(db)
        invariant TokenAt(db.tokens, TokenHash(token), 0) == TokenAt(db.tokens, TokenHash(token), i)
      {
        var t := db.tokens[i];
        if t.hash == TokenHash(token) {
          if t.revoked {
            return Some(TokenRevoked);
          }
          if t.install != install {
            return Some(InstallMismatch);
          }
          if now - t.lastActive >= TTL {
            return Some(TokenExpired);
          }
          if !saves {
            return Some(SaveFailed);
          }
          db := db.(tokens := db.tokens[i := t.(lastActive := now)]);
          return None;
        }
      }
      return Some(TokenInvalid);
    }
  }
}
