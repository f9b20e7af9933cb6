/**
 * The refresh-token store of apps/auth/src/modules/auth/auth.service.ts: device keys, the legacy
 * key, and every operation that reads or writes them.
 */
module RefreshTokens {
  import opened Collections
  import opened Keys
  import opened Redis

  /** A signed token, by the payload fields that matter here and the moment it was signed. */
  datatype Token = Token(sub: string, deviceId: Option<string>, isGuest: bool, signedAt: nat)

  datatype User = User(isActive: bool, isGuest: bool, deviceId: Option<string>)

  /** A value is present when it is neither absent nor empty. */
  function Truthy(s: Option<string>): Option<string> {
    if s == Some("") then None else s
  }

  function FirstOf(a: Option<string>, b: Option<string>): Option<string> {
    if Truthy(a).Some? then Truthy(a) else Truthy(b)
  }

  /** The payload carries a device id only when there is one. */
  function Sign(sub: string, deviceId: Option<string>, isGuest: bool, at: nat): Token {
    Token(sub, Truthy(deviceId), isGuest, at)
  }

  function LegacyKey(user: string): string {
    "refresh_token:" + user
  }

  function DeviceKey(user: string, device: string): string {
    "refresh_token:" + user + ":" + device
  }

  function KeyFor(user: string, device: Option<string>): string {
    if device.Some? then DeviceKey(user, device.value) else LegacyKey(user)
  }

  const DAY := 24 * 60 * 60

  // ----- the operations -----

  /**
   * A refresh looks the user up between its check of the stored token and its write; Check and
   * Finish are these two halves when other operations come in between, Refresh when none does.
   */
  datatype Op =
    | Login(user: string, device: string, rememberMe: bool, signedAt: nat)
    | GuestLogin(user: string, device: string, signedAt: nat)
    | Convert(user: string, signedAt: nat)
    | Refresh(token: Token, provided: Option<string>, record: Option<User>, signedAt: nat)
    | Check(token: Token, provided: Option<string>, record: Option<User>)
    | Finish(checked: Checked, signedAt: nat)
    | Logout(user: string, from: Option<string>)
    | Revoke(user: string)
    | Tick(ms: nat)

  /** A refresh that has passed its check. */
  datatype Checked = Checked(token: Token, provided: Option<string>, record: User)

  type Tokens = Store<Token>

  /** The token found under the device key, or else under the legacy key. */
  function StoredFor(s: Tokens, now: nat, user: string, device: Option<string>): Option<Token> {
    var byDevice := if device.Some? then Redis.Lookup(s, now, DeviceKey(user, device.value)) else None;
    if byDevice.Some? then byDevice else Redis.Lookup(s, now, LegacyKey(user))
  }

  /** The stored-token check of a refresh. */
  predicate Accepts(s: Tokens, now: nat, t: Token, provided: Option<string>) {
    StoredFor(s, now, t.sub, FirstOf(t.deviceId, provided)) == Some(t)
  }

  /** The token is the stored one and its user exists and is active. */
  predicate Refreshes(s: Tokens, now: nat, t: Token, provided: Option<string>, record: Option<User>) {
    Accepts(s, now, t, provided) && record.Some? && record.value.isActive
  }

  function DeviceAfterRefresh(t: Token, provided: Option<string>, record: User): Option<string> {
    FirstOf(FirstOf(t.deviceId, provided), record.deviceId)
  }

  datatype Grant = Grant(user: string, device: Option<string>, token: Token, days: nat)

  function RefreshGrant(c: Checked, at: nat): Grant {
    var device := DeviceAfterRefresh(c.token, c.provided, c.record);
    var guest := c.token.isGuest || c.record.isGuest;
    Grant(c.token.sub, device, Sign(c.token.sub, device, guest, at), if guest then 30 else 7)
  }

  /** The token an operation issues, if any. */
  function Issues(s: Tokens, now: nat, op: Op): Option<Grant> {
    match op
    case Login(u, d, rememberMe, at) =>
      Some(Grant(u, Some(d), Sign(u, Some(d), false, at), if rememberMe then 30 else 7))
    case GuestLogin(u, d, at) => Some(Grant(u, Some(d), Sign(u, Some(d), true, at), 30))
    case Convert(u, at) => Some(Grant(u, None, Sign(u, None, false, at), 7))
    case Refresh(t, provided, record, at) =>
      if Refreshes(s, now, t, provided, record) then Some(RefreshGrant(Checked(t, provided, record.value), at))
          else None
    case Finish(c, at) => Some(RefreshGrant(c, at))
    case _ => None
  }

  function Granted(s: Tokens, now: nat, grant: Option<Grant>): Tokens {
    match grant
    case Some(g) => Redis.Put(s, now, KeyFor(g.user, g.device), g.token, g.days * DAY)
    case None => s
  }

  function StoreAfter(s: Tokens, now: nat, op: Op): Tokens {
    match op
    case Logout(u, Some(d)) =>
      if d == "" then DropMatching(s, LogoutPattern(u)) - {LegacyKey(u)} else s - {DeviceKey(u, d)}
    case Logout(u, None) => DropMatching(s, LogoutPattern(u)) - {LegacyKey(u)}
    case Revoke(u) => s - {LegacyKey(u)}
    case _ => Granted(s, now, Issues(s, now, op))
  }

  function LogoutPattern(user: string): string {
    "refresh_token:" + user + ":*"
  }

  const THIRTY_DAYS_MS := 2_592_000_000
  const SEVEN_DAYS_MS := 604_800_000

  /** The first of these device ids that is present and not empty; None when there is none. */
  predicate IsFirst(ids: seq<Option<string>>, device: Option<string>) {
    match device
    case Some(d) => d != "" && exists i :: 0 <= i < |ids| && ids[i] == Some(d)
                                           && forall k :: 0 <= k < i ==> ids[k] == None || ids[k] == Some("")
    case None => forall k :: 0 <= k < |ids| ==> ids[k] == None || ids[k] == Some("")
  }

  /** What the user's entry for the first of the device ids holds, or the entry without device when that is gone. */
  function StoredFirst(s: Tokens, now: nat, user: string, ids: seq<Option<string>>): Option<Token> {
    if ids == [] then Redis.Lookup(s, now, "refresh_token:" + user)
    else if ids[0] == None || ids[0] == Some("") then StoredFirst(s, now, user, ids[1..])
    else
      var entry := Redis.Lookup(s, now, "refresh_token:" + user + ":" + ids[0].value);
      if entry == None then Redis.Lookup(s, now, "refresh_token:" + user) else entry
  }

  lemma StoredFirstOf(s: Tokens, now: nat, user: string, a: Option<string>, b: Option<string>)
    ensures StoredFirst(s, now, user, [a, b]) == StoredFor(s, now, user, FirstOf(a, b))
  {
    assert [a, b][1..] == [b] && [b][1..] == [];
    assert StoredFirst(s, now, user, [b]) == StoredFor(s, now, user, Truthy(b));
  }

  /** There is only one first device. */
  lemma FirstIsUnique(ids: seq<Option<string>>, a: Option<string>, b: Option<string>)
    requires IsFirst(ids, a) && IsFirst(ids, b)
    ensures a == b
  {
    if a.Some? && b.Some? {
      var i :| 0 <= i < |ids| && ids[i] == a && forall k :: 0 <= k < i ==> ids[k] == None || ids[k] == Some("");
      var j :| 0 <= j < |ids| && ids[j] == b && forall k :: 0 <= k < j ==> ids[k] == None || ids[k] == Some("");
    }
  }

  lemma FirstOfThree(a: Option<string>, b: Option<string>, c: Option<string>)
    ensures IsFirst([a, b, c], FirstOf(FirstOf(a, b), c))
  {
    var ids := [a, b, c];
    assert ids[0] == a && ids[1] == b && ids[2] == c;
  }

  /** The new token is for the same user, names the first of the devices, and is a guest's if either says so. */
  predicate Renews(token: Token, ids: seq<Option<string>>, record: User, signedAt: nat, renewed: Token) {
    && renewed.sub == token.sub && renewed.signedAt == signedAt && IsFirst(ids, renewed.deviceId)
    && renewed.isGuest == (token.isGuest || record.isGuest)
  }

  /** A token is kept under its own user and device. */
  function RenewedKey(t: Token): string {
    if t.deviceId == None then "refresh_token:" + t.sub else "refresh_token:" + t.sub + ":" + t.deviceId.value
  }

  class AuthService {
    const redis: RedisService<Token>

    constructor (redis: RedisService<Token>)
      ensures this.redis == redis
    {
      this.redis := redis;
    }

    /** `generated` is the new device id used when the request names none. */
    method Login(user: string, requested: Option<string>, generated: string, rememberMe: bool, signedAt: nat)
        returns (token: Token)
      requires generated != ""
      modifies redis`entries
      ensures var device := if Truthy(requested).Some? then requested.value else generated;
              var op := Op.Login(user, device, rememberMe, signedAt);
              && redis.entries == StoreAfter(old(redis.entries), redis.now, op)
              && Issues(old(redis.entries), redis.now, op).value.token == token
      ensures var device := if requested == None || requested == Some("") then generated else requested.value;
              && token == Token(user, Some(device), false, signedAt)
              && redis.entries == old(redis.entries)["refresh_token:" + user + ":" + device :=
                   Entry(token, Some(redis.now + if rememberMe then THIRTY_DAYS_MS else SEVEN_DAYS_MS))]
    {
      var deviceId := if requested.Some? && requested.value != "" then requested.value else generated;
      token := Sign(user, Some(deviceId), false, signedAt);
      var expiry := if rememberMe then 30 * 24 * 60 * 60 else 7 * 24 * 60 * 60;
      redis.Set("refresh_token:" + user + ":" + deviceId, token, expiry);
    }

    /** The device id is whatever text the request carries; the token names it only when it is not empty. */
    method CreateGuestSession(user: string, deviceId: string, signedAt: nat) returns (token: Token)
      modifies redis`entries
      ensures redis.entries == StoreAfter(old(redis.entries), redis.now, GuestLogin(user, deviceId, signedAt))
      ensures Issues(old(redis.entries), redis.now, GuestLogin(user, deviceId, signedAt)).value.token == token
      ensures token == Token(user, if deviceId == "" then None else Some(deviceId), true, signedAt)
      ensures redis.entries == old(redis.entries)["refresh_token:" + user + ":" + deviceId :=
                Entry(token, Some(redis.now + THIRTY_DAYS_MS))]
    {
      token := Sign(user, Some(deviceId), true, signedAt);
      redis.Set("refresh_token:" + user + ":" + deviceId, token, 30 * 24 * 60 * 60);
    }

    method ConvertGuestToRegistered(user: string, signedAt: nat) returns (token: Token)
      modifies redis`entries
      ensures redis.entries == StoreAfter(old(redis.entries), redis.now, Convert(user, signedAt))
      ensures Issues(old(redis.entries), redis.now, Convert(user, signedAt)).value.token == token
      ensures token == Token(user, None, false, signedAt)
      ensures redis.entries == old(redis.entries)["refresh_token:" + user :=
        Entry(token, Some(redis.now + SEVEN_DAYS_MS))]
    {
      token := Sign(user, None, false, signedAt);
      redis.Set("refresh_token:" + user, token, 7 * 24 * 60 * 60);
    }

    /** A token whose signature has been verified; `record` is the user found for it. */
    method RefreshTokens(token: Token, provided: Option<string>, record: Option<User>, signedAt: nat)
        returns (r: Option<Token>)
      modifies redis`entries
      ensures var op := Op.Refresh(token, provided, record, signedAt);
              && redis.entries == StoreAfter(old(redis.entries), redis.now, op)
              && var grant := Issues(old(redis.entries), redis.now, op);
                 r == if grant.Some? then Some(grant.value.token) else None
      ensures r.Some? <==> record.Some? && record.value.isActive
                           && StoredFirst(old(redis.entries), redis.now, token.sub, [token.deviceId, provided])
                               == Some(token)
      ensures r == None ==> redis.entries == old(redis.entries)
      ensures r.Some? ==> Renews(token, [token.deviceId, provided, record.value.deviceId], record.value, signedAt,
        r.value)
      ensures r.Some? ==> redis.entries == old(redis.entries)[RenewedKey(r.value) :=
                Entry(r.value, Some(redis.now + if r.value.isGuest then THIRTY_DAYS_MS else SEVEN_DAYS_MS))]
    {
      StoredFirstOf(redis.entries, redis.now, token.sub, token.deviceId, provided);
      var deviceId := FirstOf(token.deviceId, provided);
      var storedToken: Option<Token> := None;
      if deviceId.Some? {
        storedToken := redis.Get("refresh_token:" + token.sub + ":" + deviceId.value);
      }
      if storedToken.None? {
        storedToken := redis.Get("refresh_token:" + token.sub);
      }
      if storedToken != Some(token) {
        return None;
      }
      if record.None? || !record.value.isActive {
        return None;
      }
      FirstOfThree(token.deviceId, provided, record.value.deviceId);
      var isGuest := token.isGuest || record.value.isGuest;
      var effectiveDeviceId := FirstOf(deviceId, record.value.deviceId);
      var renewed := Sign(token.sub, effectiveDeviceId, isGuest, signedAt);
      var expiry := if isGuest then 30 * 24 * 60 * 60 else 7 * 24 * 60 * 60;
      var redisKey := if effectiveDeviceId.Some? then "refresh_token:" + token.sub + ":" + effectiveDeviceId.value
                      else "refresh_token:" + token.sub;
      redis.Set(redisKey, renewed, expiry);
      return Some(renewed);
    }

    method Logout(user: string, deviceId: Option<string>)
      modifies redis`entries
      ensures redis.entries == StoreAfter(old(redis.entries), redis.now, Op.Logout(user, deviceId))
    {
      if deviceId.Some? && deviceId.value != "" {
        redis.Del("refresh_token:" + user + ":" + deviceId.value);
      } else {
        redis.DelPattern("refresh_token:" + user + ":*");
        redis.Del("refresh_token:" + user);
      }
    }

    /** The store effect of revokeSession and revokeAllSessions. */
    method RevokeSessions(user: string)
      modifies redis`entries
      ensures redis.entries == StoreAfter(old(redis.entries), redis.now, Op.Revoke(user))
    {
      redis.Del("refresh_token:" + user);
    }
  }

  // ----- runs, and what was last issued -----

  datatype Fact = Issued(g: Grant, expiresAt: nat) | LoggedOut(user: string, device: Option<string>)

  datatype State = State(store: Tokens, now: nat, history: seq<Fact>, checked: multiset<Checked>)

  function Facts(s: State, op: Op): seq<Fact> {
    match op
    case Logout(u, d) => [LoggedOut(u, Truthy(d))]
    case _ => GrantFacts(s.now, Issues(s.store, s.now, op))
  }

  function GrantFacts(now: nat, grant: Option<Grant>): seq<Fact> {
    match grant
    case Some(g) => [Issued(g, now + 1000 * (g.days * DAY))]
    case None => []
  }

  function Next(s: State, op: Op): State {
    if op.Finish? && op.checked !in s.checked then s
    else
      State(StoreAfter(s.store, s.now, op), if op.Tick? then s.now + op.ms else s.now, s.history + Facts(s, op),
            match op
            case Check(t, provided, record) =>
              if Refreshes(s.store, s.now, t, provided, record)
                  then s.checked + multiset{Checked(t, provided, record.value)}
              else s.checked
            case Finish(c, _) => s.checked - multiset{c}
            case _ => s.checked)
  }

  function After(start: nat, ops: seq<Op>): State {
    if ops == [] then State(map[], start, [], multiset{}) else Next(After(start, ops[..|ops| - 1]), ops[|ops| - 1])
  }

  /** What was last issued for a user's device since that device, or all devices, last logged out. */
  function LastIssued(history: seq<Fact>, user: string, device: string): Option<(Token, nat)> {
    if history == [] then None
    else
      var rest := LastIssued(history[..|history| - 1], user, device);
      match history[|history| - 1]
      case Issued(g, e) => if g.user == user && g.device == Some(device) then Some((g.token, e)) else rest
      case LoggedOut(u, d) => if u == user && (d == None || d == Some(device)) then None else rest
  }

  lemma AfterOneMore(start: nat, ops: seq<Op>, op: Op)
    ensures After(start, ops + [op]) == Next(After(start, ops), op)
  {
    var all := ops + [op];
    assert all[..|all| - 1] == ops && all[|all| - 1] == op;
  }

  lemma LastIssuedOneMore(history: seq<Fact>, fact: Fact, user: string, device: string)
    ensures LastIssued(history + [fact], user, device) ==
            match fact
            case Issued(g, e) =>
              if g.user == user && g.device == Some(device) then Some((g.token, e))
              else LastIssued(history, user, device)
            case LoggedOut(u, d) =>
              if u == user && (d == None || d == Some(device)) then None else LastIssued(history, user, device)
  {
    assert (history + [fact])[..|history|] == history;
  }

  /** The user whose entries an operation works on. */
  function UserOf(op: Op): Option<string> {
    match op
    case Login(u, _, _, _) => Some(u)
    case GuestLogin(u, _, _) => Some(u)
    case Convert(u, _) => Some(u)
    case Refresh(t, _, _, _) => Some(t.sub)
    case Check(t, _, _) => Some(t.sub)
    case Finish(c, _) => Some(c.token.sub)
    case Logout(u, _) => Some(u)
    case Revoke(u) => Some(u)
    case Tick(_) => None
  }

  /** The operations work on users of the set; the devices they name are arbitrary texts. */
  ghost predicate RunOf(users: iset<string>, ops: seq<Op>) {
    forall i :: 0 <= i < |ops| && UserOf(ops[i]).Some? ==> UserOf(ops[i]).value in users
  }

  /** Neither id is the other followed by a colon and more. */
  predicate Apart(u: string, u': string) {
    u == u' || (!(u + ":" <= u') && !(u' + ":" <= u))
  }

  /** No id contains pattern characters; generated ids do not. */
  ghost predicate PatternFree(users: iset<string>) {
    forall u :: u in users ==> GlobFree(u)
  }

  ghost predicate AllApart(users: iset<string>) {
    forall u, u' :: u in users && u' in users ==> Apart(u, u')
  }

  // ----- keys -----

  lemma DeviceKeyText(u: string, d: string)
    ensures DeviceKey(u, d) == "refresh_token:" + (u + ":" + d) == LegacyKey(u + ":" + d)
  {
  }

  lemma {:induction false} DeviceKeyInjective(u: string, d: string, u': string, d': string)
    requires Apart(u, u')
    ensures DeviceKey(u, d) == DeviceKey(u', d') <==> u == u' && d == d'
  {
    if DeviceKey(u, d) == DeviceKey(u', d') {
      DeviceKeyText(u, d);
      DeviceKeyText(u', d');
      SamePrefix("refresh_token:", u + ":" + d, u' + ":" + d');
      SameStart(u, d, u', d');
    }
  }

  /**
   * Two equal texts, each an id followed by a colon and more: one id is also followed so in the
   * other, or both are the same.
   */
  lemma SameStart(u: string, d: string, u': string, d': string)
    requires u + ":" + d == u' + ":" + d'
    ensures (u == u' && d == d') || u + ":" <= u' || u' + ":" <= u
  {
    var k := u + ":" + d;
    assert k[..|u| + 1] == u + ":" && k[|u| + 1..] == d;
    assert (u' + ":" + d')[..|u'| + 1] == u' + ":";
    assert (u' + ":" + d')[|u'| + 1..] == d';
    assert u == k[..|u|] && u' == k[..|u'|];
  }

  lemma LegacyKeyApart(u: string, d: string, u': string)
    requires Apart(u, u')
    ensures DeviceKey(u, d) != LegacyKey(u')
  {
    if DeviceKey(u, d) == LegacyKey(u') {
      DeviceKeyText(u, d);
      SamePrefix("refresh_token:", u + ":" + d, u');
      BeginsWithId(u, d, u');
    }
  }

  lemma BeginsWithId(u: string, d: string, u': string)
    requires u + ":" + d == u'
    ensures u + ":" <= u'
  {
  }

  lemma LegacyKeyInjective(u: string, u': string)
    ensures LegacyKey(u) == LegacyKey(u') <==> u == u'
  {
    if LegacyKey(u) == LegacyKey(u') {
      SamePrefix("refresh_token:", u, u');
    }
  }

  /** Logging a user out of all devices matches exactly that user's device keys, and no legacy key. */
  lemma LogoutMatches(u: string, u': string, d: string)
    requires GlobFree(u) && Apart(u, u')
    ensures GlobMatch(LogoutPattern(u), DeviceKey(u', d)) <==> u == u'
    ensures !GlobMatch(LogoutPattern(u), LegacyKey(u'))
  {
    var prefix := "refresh_token:" + u + ":";
    assert LogoutPattern(u) == prefix + "*";
    assert GlobFree("refresh_token:");
    PrefixPattern(prefix, DeviceKey(u', d));
    PrefixPattern(prefix, LegacyKey(u'));
    if u == u' {
      assert DeviceKey(u', d) == prefix + d;
    } else if prefix <= DeviceKey(u', d) {
      PrefixIsDeviceKey(u, DeviceKey(u', d));
      DeviceKeyInjective(u', d, u, DeviceKey(u', d)[|prefix|..]);
    }
    if prefix <= LegacyKey(u') {
      PrefixIsDeviceKey(u, LegacyKey(u'));
      LegacyKeyApart(u, LegacyKey(u')[|prefix|..], u');
    }
  }

  lemma PrefixIsDeviceKey(u: string, key: string)
    requires "refresh_token:" + u + ":" <= key
    ensures key == DeviceKey(u, key[|"refresh_token:" + u + ":"|..])
  {
  }

  // ----- the invariant -----

  ghost predicate DeviceEntryMatches(s: State, user: string, device: string) {
    match LastIssued(s.history, user, device)
    case None => DeviceKey(user, device) !in s.store
    case Some((t, e)) =>
      && DeviceKey(user, device) in s.store && s.store[DeviceKey(user, device)] == Entry(t, Some(e))
      && t.sub == user && t.deviceId == Truthy(Some(device))
  }

  ghost predicate LegacyEntryIsDeviceless(s: State, user: string) {
    LegacyKey(user) in s.store ==> s.store[LegacyKey(user)].value.deviceId == None
  }

  lemma {:induction false} StoreMatchesHistory(users: iset<string>, start: nat, ops: seq<Op>, user: string,
      device: string)
    requires PatternFree(users) && AllApart(users) && RunOf(users, ops) && user in users
    ensures DeviceEntryMatches(After(start, ops), user, device)
    ensures LegacyEntryIsDeviceless(After(start, ops), user)
  {
    if ops != [] {
      var n := |ops| - 1;
      assert forall i :: 0 <= i < n ==> ops[..n][i] == ops[i];
      StoreMatchesHistory(users, start, ops[..n], user, device);
      StepMatches(After(start, ops[..n]), ops[n], user, device);
    }
  }

  /** The operation is by a user whose keys cannot be taken for those of `user`. */
  predicate Separate(op: Op, user: string) {
    UserOf(op).Some? ==> GlobFree(UserOf(op).value) && Apart(UserOf(op).value, user)
  }

  lemma StepMatches(s: State, op: Op, user: string, device: string)
    requires Separate(op, user)
    requires DeviceEntryMatches(s, user, device) && LegacyEntryIsDeviceless(s, user)
    ensures DeviceEntryMatches(Next(s, op), user, device)
    ensures LegacyEntryIsDeviceless(Next(s, op), user)
  {
    if op.Finish? && op.checked !in s.checked {
    } else if op.Logout? {
      assert (s.history + Facts(s, op))[..|s.history|] == s.history;
      if Truthy(op.from).Some? {
        OneLogoutMatchesHistory(s, op, user, device);
      } else {
        FullLogoutMatchesHistory(s, op, user, device);
      }
    } else if op.Revoke? {
      LegacyKeyApart(user, device, op.user);
      assert s.history + Facts(s, op) == s.history;
    } else {
      var grant := Issues(s.store, s.now, op);
      if grant.Some? {
        GrantIsPlain(s, op);
        GrantMatchesHistory(s, op, grant.value, user, device);
      } else {
        assert s.history + Facts(s, op) == s.history;
      }
    }
  }

  lemma FullLogoutMatchesHistory(s: State, op: Op, user: string, device: string)
    requires op.Logout? && Truthy(op.from).None? && Separate(op, user)
    requires DeviceEntryMatches(s, user, device) && LegacyEntryIsDeviceless(s, user)
    ensures DeviceEntryMatches(Next(s, op), user, device)
    ensures LegacyEntryIsDeviceless(Next(s, op), user)
  {
    assert (s.history + Facts(s, op))[..|s.history|] == s.history;
    LogoutMatches(op.user, user, device);
    LegacyKeyApart(user, device, op.user);
  }

  lemma OneLogoutMatchesHistory(s: State, op: Op, user: string, device: string)
    requires op.Logout? && Truthy(op.from).Some? && Separate(op, user)
    requires DeviceEntryMatches(s, user, device) && LegacyEntryIsDeviceless(s, user)
    ensures DeviceEntryMatches(Next(s, op), user, device)
    ensures LegacyEntryIsDeviceless(Next(s, op), user)
  {
    assert (s.history + Facts(s, op))[..|s.history|] == s.history;
    DeviceKeyInjective(user, device, op.user, op.from.value);
    LegacyKeyApart(op.user, op.from.value, user);
  }

  /** What an operation that issues a token does. */
  lemma GrantStep(s: State, op: Op)
    requires Issues(s.store, s.now, op).Some? && (op.Finish? ==> op.checked in s.checked)
    ensures var g := Issues(s.store, s.now, op).value;
            && Next(s, op).store == Redis.Put(s.store, s.now, KeyFor(g.user, g.device), g.token, g.days * DAY)
            && Next(s, op).history == s.history + [Issued(g, s.now + 1000 * (g.days * DAY))]
  {
  }

  lemma GrantMatchesHistory(s: State, op: Op, g: Grant, user: string, device: string)
    requires !op.Logout? && !op.Revoke? && Issues(s.store, s.now, op) == Some(g)
    requires op.Finish? ==> op.checked in s.checked
    requires Apart(g.user, user) && g.token.sub == g.user && g.token.deviceId == Truthy(g.device) && g.days > 0
    requires DeviceEntryMatches(s, user, device) && LegacyEntryIsDeviceless(s, user)
    ensures DeviceEntryMatches(Next(s, op), user, device)
    ensures LegacyEntryIsDeviceless(Next(s, op), user)
  {
    GrantStep(s, op);
    var issued := Issued(g, s.now + 1000 * (g.days * DAY));
    assert (s.history + [issued])[..|s.history|] == s.history;
    if g.device.Some? {
      DeviceKeyInjective(user, device, g.user, g.device.value);
      LegacyKeyApart(g.user, g.device.value, user);
    } else {
      LegacyKeyApart(user, device, g.user);
    }
  }

  lemma GrantIsPlain(s: State, op: Op)
    requires Issues(s.store, s.now, op).Some?
    ensures var g := Issues(s.store, s.now, op).value;
            UserOf(op) == Some(g.user) && g.token.sub == g.user && g.token.deviceId == Truthy(g.device) && g.days > 0
  {
  }

  // ----- what holds in every reachable state -----

  /**
   * The stored-token check passes exactly when the token is the one last issued for its user and
   * device since that device or all devices last logged out, and its lifetime is not over.
   */
  ghost predicate CheckIsExact(s: State, t: Token, provided: Option<string>)
    requires Truthy(t.deviceId).Some?
  {
    Accepts(s.store, s.now, t, provided) <==>
    match LastIssued(s.history, t.sub, t.deviceId.value)
    case Some((last, expiresAt)) => t == last && s.now < expiresAt
    case None => false
  }

  /** In every reachable state the check is exact for every token that carries a device id. */
  lemma AcceptedIffLastIssued(users: iset<string>, start: nat, ops: seq<Op>, t: Token, provided: Option<string>)
    requires PatternFree(users) && AllApart(users) && RunOf(users, ops)
    requires t.sub in users && Truthy(t.deviceId).Some?
    ensures CheckIsExact(After(start, ops), t, provided)
  {
    StoreMatchesHistory(users, start, ops, t.sub, t.deviceId.value);
  }

  ghost predicate AlwaysExact(users: iset<string>) {
    forall start: nat, ops, t: Token, provided ::
      RunOf(users, ops) && t.sub in users && Truthy(t.deviceId).Some? ==> CheckIsExact(After(start, ops), t, provided)
  }

  /**
   * The sets of user ids, free of pattern characters, for which this holds are exactly those in
   * which no id is another followed by a colon and more.
   */
  lemma AlwaysExactIffApart(users: iset<string>)
    requires PatternFree(users)
    ensures AlwaysExact(users) <==> AllApart(users)
  {
    if AllApart(users) {
      forall start: nat, ops, t: Token, provided | RunOf(users, ops) && t.sub in users && Truthy(t.deviceId).Some?
        ensures CheckIsExact(After(start, ops), t, provided)
      {
        AcceptedIffLastIssued(users, start, ops, t, provided);
      }
    } else {
      var u, u' :| u in users && u' in users && !Apart(u, u');
      if u + ":" <= u' {
        NestedIdsClash(users, u, u');
      } else {
        NestedIdsClash(users, u', u);
      }
    }
  }

  /**
   * When one id is another followed by a colon and more, a login of the longer one can replace a
   * token of the shorter.
   */
  lemma NestedIdsClash(users: iset<string>, u: string, u': string)
    requires u in users && u' in users && u + ":" <= u'
    ensures !AlwaysExact(users)
  {
    var device := u'[|u| + 1..] + ":x";
    var first, second := Op.Login(u, device, false, 0), Op.Login(u', "x", false, 0);
    var ops := [first, second];
    assert RunOf(users, ops);
    assert u' == u + ":" + u'[|u| + 1..];
    assert DeviceKey(u, device) == DeviceKey(u', "x");
    var t := Sign(u, Some(device), false, 0);
    TwoLogins(u, device, u', "x");
    assert !CheckIsExact(After(0, ops), t, None);
  }

  lemma TwoLogins(u: string, d: string, u': string, d': string)
    requires u != u' && d != "" && d' != ""
    ensures var s := After(0, [Op.Login(u, d, false, 0), Op.Login(u', d', false, 0)]);
            && LastIssued(s.history, u, d) == Some((Sign(u, Some(d), false, 0), 1000 * (7 * DAY))) && s.now == 0
            && Redis.Lookup(s.store, 0, DeviceKey(u', d')) == Some(Sign(u', Some(d'), false, 0))
  {
    var first, second := Op.Login(u, d, false, 0), Op.Login(u', d', false, 0);
    assert [] + [first] == [first] && [first] + [second] == [first, second];
    AfterOneMore(0, [], first);
    AfterOneMore(0, [first], second);
    FirstLogin(u, d);
    SecondLogin(Next(After(0, []), first), u, d, u', d');
  }

  lemma FirstLogin(u: string, d: string)
    requires d != ""
    ensures var s := Next(After(0, []), Op.Login(u, d, false, 0));
            LastIssued(s.history, u, d) == Some((Sign(u, Some(d), false, 0), 1000 * (7 * DAY))) && s.now == 0
  {
    var g := Grant(u, Some(d), Sign(u, Some(d), false, 0), 7);
    LastIssuedOneMore([], Issued(g, 1000 * (7 * DAY)), u, d);
    assert [] + [Issued(g, 1000 * (7 * DAY))] == [Issued(g, 1000 * (7 * DAY))];
  }

  lemma SecondLogin(s: State, u: string, d: string, u': string, d': string)
    requires u != u' && d' != "" && s.now == 0
    ensures var s' := Next(s, Op.Login(u', d', false, 0));
            && LastIssued(s'.history, u, d) == LastIssued(s.history, u, d) && s'.now == 0
            && Redis.Lookup(s'.store, 0, DeviceKey(u', d')) == Some(Sign(u', Some(d'), false, 0))
  {
    LastIssuedOneMore(s.history, Issued(Grant(u', Some(d'), Sign(u', Some(d'), false, 0), 7), 1000 * (7 * DAY)), u, d);
  }

  /** Colon-free ids, such as generated ones, are apart. */
  lemma ColonFreeAreApart(users: iset<string>)
    requires forall u :: u in users ==> ColonFree(u)
    ensures AllApart(users)
  {
    forall u, u' | u in users && u' in users ensures Apart(u, u') {
      if u + ":" <= u' {
        ColonFreeNotNested(u, u');
      }
      if u' + ":" <= u {
        ColonFreeNotNested(u', u);
      }
    }
  }

  lemma ColonFreeNotNested(u: string, u': string)
    requires u + ":" <= u'
    ensures !ColonFree(u')
  {
    assert u'[|u|] == (u + ":")[|u|];
  }

  /**
   * A refresh of a device-bound token issues a new one if and only if the token is the one last
   * issued for its device since the last logout, within its lifetime, and its user is active.
   */
  lemma RefreshIssuesIff(users: iset<string>, start: nat, ops: seq<Op>, op: Op)
    requires PatternFree(users) && AllApart(users) && RunOf(users, ops + [op])
    requires op.Refresh? && Truthy(op.token.deviceId).Some?
    ensures var s := After(start, ops);
            Issues(s.store, s.now, op).Some? <==>
            && op.record.Some? && op.record.value.isActive
            && match LastIssued(s.history, op.token.sub, op.token.deviceId.value)
               case Some((last, expiresAt)) => op.token == last && s.now < expiresAt
               case None => false
  {
    assert (ops + [op])[|ops|] == op && (ops + [op])[..|ops|] == ops;
    AcceptedIffLastIssued(users, start, ops, op.token, op.provided);
  }

  /** The days that a new token lasts: 30 for remembered logins and guests, 7 for others. */
  function Days(op: Op): nat
    requires op.Login? || op.GuestLogin? || op.Refresh?
  {
    match op
    case Login(_, _, rememberMe, _) => if rememberMe then 30 else 7
    case GuestLogin(_, _, _) => 30
    case Refresh(t, _, record, _) => if t.isGuest || (record.Some? && record.value.isGuest) then 30 else 7
  }

  /**
   * While nothing else happens, a new token for a device is accepted for exactly that many days of
   * 86.4 million milliseconds.
   */
  lemma TokenLasts(users: iset<string>, start: nat, ops: seq<Op>, op: Op, ms: nat)
    requires PatternFree(users) && AllApart(users) && RunOf(users, ops + [op])
    requires op.Login? || op.GuestLogin? || op.Refresh?
    requires var s := After(start, ops);
             Issues(s.store, s.now, op).Some? && Truthy(Issues(s.store, s.now, op).value.device).Some?
    ensures var s, s' := After(start, ops), Next(After(start, ops + [op]), Tick(ms));
            Accepts(s'.store, s'.now, Issues(s.store, s.now, op).value.token, None) <==> ms < Days(op) * 86_400_000
  {
    var s := After(start, ops);
    var g := Issues(s.store, s.now, op).value;
    GrantIsPlain(s, op);
    DaysOf(s, op);
    AfterOneMore(start, ops, op);
    NewestIssued(s, op, ms);
    assert UserOf(op) == Some(g.token.sub) && (ops + [op])[|ops|] == op;
    ExactAfterTick(users, start, ops + [op], ms, g.token);
    var expiresAt, s' := s.now + Days(op) * 86_400_000, Next(Next(s, op), Tick(ms));
    assert s'.now == s.now + ms;
    ExactUntil(s', g.token, expiresAt);
  }

  lemma ExactAfterTick(users: iset<string>, start: nat, ops: seq<Op>, ms: nat, t: Token)
    requires PatternFree(users) && AllApart(users) && RunOf(users, ops) && t.sub in users && Truthy(t.deviceId).Some?
    ensures CheckIsExact(Next(After(start, ops), Tick(ms)), t, None)
  {
    AfterOneMore(start, ops, Tick(ms));
    TickStaysIn(users, ops, ms);
    AcceptedIffLastIssued(users, start, ops + [Tick(ms)], t, None);
  }

  lemma ExactUntil(s: State, t: Token, expiresAt: nat)
    requires Truthy(t.deviceId).Some? && CheckIsExact(s, t, None)
    requires LastIssued(s.history, t.sub, t.deviceId.value) == Some((t, expiresAt))
    ensures Accepts(s.store, s.now, t, None) <==> s.now < expiresAt
  {
  }

  lemma DaysOf(s: State, op: Op)
    requires op.Login? || op.GuestLogin? || op.Refresh?
    requires Issues(s.store, s.now, op).Some?
    ensures Issues(s.store, s.now, op).value.days == Days(op)
    ensures 1000 * (Issues(s.store, s.now, op).value.days * DAY) == Days(op) * 86_400_000
  {
    assert DAY == 86_400;
  }

  lemma TickStaysIn(users: iset<string>, ops: seq<Op>, ms: nat)
    requires RunOf(users, ops)
    ensures RunOf(users, ops + [Tick(ms)])
  {
    var all := ops + [Tick(ms)];
    forall i | 0 <= i < |all| && UserOf(all[i]).Some? ensures UserOf(all[i]).value in users {
      assert i < |ops| && all[i] == ops[i];
    }
  }

  /** After an operation that issues a token, and a tick, that token is the one last issued for its device. */
  lemma NewestIssued(s: State, op: Op, ms: nat)
    requires op.Login? || op.GuestLogin? || op.Refresh?
    requires Issues(s.store, s.now, op).Some? && Issues(s.store, s.now, op).value.device.Some?
    ensures var g, s' := Issues(s.store, s.now, op).value, Next(Next(s, op), Tick(ms));
            && s'.now == s.now + ms
            && LastIssued(s'.history, g.user, g.device.value) == Some((g.token, s.now + 1000 * (g.days * DAY)))
  {
    var g := Issues(s.store, s.now, op).value;
    GrantStep(s, op);
    LastIssuedOneMore(s.history, Issued(g, s.now + 1000 * (g.days * DAY)), g.user, g.device.value);
    assert Next(Next(s, op), Tick(ms)).history == Next(s, op).history + [];
  }

  /** Only refreshes of active users pass the check. */
  lemma {:induction false} CheckedAreActive(start: nat, ops: seq<Op>, c: Checked)
    requires c in After(start, ops).checked
    ensures c.record.isActive
  {
    if ops != [] {
      var n := |ops| - 1;
      if c in After(start, ops[..n]).checked {
        CheckedAreActive(start, ops[..n], c);
      }
    }
  }

  /** The operation is a check of this refresh that passes; of its write, that it is made. */
  predicate PassesNow(s: State, op: Op, c: Checked) {
    && op == Check(c.token, c.provided, Some(c.record)) && c.record.isActive
    && StoredFirst(s.store, s.now, c.token.sub, [c.token.deviceId, c.provided]) == Some(c.token)
  }

  predicate WritesNow(s: State, op: Op, c: Checked) {
    op.Finish? && op.checked == c && c in s.checked
  }

  /** How often the refresh passed its check, and how often it wrote. */
  function Passes(start: nat, ops: seq<Op>, c: Checked): nat {
    if ops == [] then 0
    else
      var init := ops[..|ops| - 1];
      Passes(start, init, c) + if PassesNow(After(start, init), ops[|ops| - 1], c) then 1 else 0
  }

  function Writes(start: nat, ops: seq<Op>, c: Checked): nat {
    if ops == [] then 0
    else
      var init := ops[..|ops| - 1];
      Writes(start, init, c) + if WritesNow(After(start, init), ops[|ops| - 1], c) then 1 else 0
  }

  lemma PendingStep(s: State, op: Op, c: Checked)
    ensures Next(s, op).checked[c] + (if WritesNow(s, op, c) then 1 else 0)
            == s.checked[c] + if PassesNow(s, op, c) then 1 else 0
  {
    StoredFirstOf(s.store, s.now, c.token.sub, c.token.deviceId, c.provided);
  }

  /** Every passed check allows one write: those not yet made are exactly the pending ones. */
  lemma {:induction false} OneWritePerCheck(start: nat, ops: seq<Op>, c: Checked)
    ensures After(start, ops).checked[c] + Writes(start, ops, c) == Passes(start, ops, c)
  {
    if ops != [] {
      OneWritePerCheck(start, ops[..|ops| - 1], c);
      PendingStep(After(start, ops[..|ops| - 1]), ops[|ops| - 1], c);
    }
  }

  function Ticks(ops: seq<Op>): nat {
    if ops == [] then 0 else Ticks(ops[..|ops| - 1]) + if ops[|ops| - 1].Tick? then ops[|ops| - 1].ms else 0
  }

  /** The clock moves by the ticks, and by nothing else. */
  lemma {:induction false} ClockIsTicks(start: nat, ops: seq<Op>)
    ensures After(start, ops).now == start + Ticks(ops)
  {
    if ops != [] {
      ClockIsTicks(start, ops[..|ops| - 1]);
    }
  }

  /** The legacy key only ever holds tokens without a device id. */
  lemma LegacyHoldsDeviceless(users: iset<string>, start: nat, ops: seq<Op>, user: string, now: nat)
    requires PatternFree(users) && AllApart(users) && RunOf(users, ops) && user in users
    ensures match Redis.Lookup(After(start, ops).store, now, LegacyKey(user))
            case Some(t) => t.deviceId == None
            case None => true
  {
    StoreMatchesHistory(users, start, ops, user, "device");
  }

  /**
   * Rotation. A device-bound token that is refreshed is replaced by the new token, which is
   * accepted at once; the old one is not accepted again unless signing produced the same token.
   */
  lemma RefreshRotates(users: iset<string>, start: nat, ops: seq<Op>, op: Op)
    requires PatternFree(users) && AllApart(users) && RunOf(users, ops + [op])
    requires op.Refresh? && Truthy(op.token.deviceId).Some?
    requires var s := After(start, ops); Issues(s.store, s.now, op).Some?
    ensures var s, s' := After(start, ops), After(start, ops + [op]);
            var renewed := Issues(s.store, s.now, op).value.token;
            && Accepts(s'.store, s'.now, renewed, None)
            && (Accepts(s'.store, s'.now, op.token, op.provided) <==> op.token == renewed)
  {
    var s := After(start, ops);
    AfterOneMore(start, ops, op);
    GrantIsPlain(s, op);
    GrantStep(s, op);
    var g := Issues(s.store, s.now, op).value;
    LastIssuedOneMore(s.history, Issued(g, s.now + 1000 * (g.days * DAY)), g.user, g.device.value);
    AcceptedIffLastIssued(users, start, ops + [op], g.token, None);
    AcceptedIffLastIssued(users, start, ops + [op], op.token, op.provided);
  }

  // ----- guests without a device id -----

  /** The legacy entry is this very token. */
  predicate LegacyIs(s: State, t: Token) {
    Redis.Lookup(s.store, s.now, LegacyKey(t.sub)) == Some(t)
  }

  /**
   * The token of a guest login is accepted if and only if the login named a device: one without a
   * device id is stored under a key that no refresh looks up. (The one exception is a legacy entry
   * that happens to be the same token, while no entry is found under a provided device.)
   */
  lemma GuestTokenAcceptedIff(users: iset<string>, start: nat, ops: seq<Op>, op: Op, provided: Option<string>)
    requires PatternFree(users) && AllApart(users) && RunOf(users, ops + [op]) && op.GuestLogin?
    ensures var s := After(start, ops + [op]);
            var t := Sign(op.user, Some(op.device), true, op.signedAt);
            Accepts(s.store, s.now, t, provided) <==>
            || op.device != ""
            || (LegacyIs(After(start, ops), t)
                && (Truthy(provided).Some? ==>
                      Redis.Lookup(s.store, s.now, DeviceKey(op.user, provided.value)) == None))
  {
    AfterOneMore(start, ops, op);
    GuestStored(After(start, ops), op);
    if op.device == "" && Truthy(provided).Some? {
      StoreMatchesHistory(users, start, ops + [op], op.user, provided.value);
      assert Redis.Lookup(After(start, ops + [op]).store, After(start, ops).now, DeviceKey(op.user, provided.value))
             != Some(Sign(op.user, Some(op.device), true, op.signedAt));
    }
  }

  /** A guest login stores its token under the device key, and leaves the legacy entry. */
  lemma GuestStored(s: State, op: Op)
    requires op.GuestLogin?
    ensures var t, s' := Sign(op.user, Some(op.device), true, op.signedAt), Next(s, op);
            && Redis.Lookup(s'.store, s'.now, DeviceKey(op.user, op.device)) == Some(t) && s'.now == s.now
            && Redis.Lookup(s'.store, s'.now, LegacyKey(op.user)) == Redis.Lookup(s.store, s.now, LegacyKey(op.user))
  {
    LegacyKeyApart(op.user, op.device, op.user);
  }

  /** The first guest login on an empty store, with an empty device id, issues a token that is never accepted. */
  lemma GuestWithoutDeviceId(provided: Option<string>)
    ensures var s := After(0, [GuestLogin("u", "", 0)]);
            !Accepts(s.store, s.now, Sign("u", Some(""), true, 0), provided)
  {
    var ops := [GuestLogin("u", "", 0)];
    assert [] + ops == ops;
    var users := iset{"u"};
    assert PatternFree(users) && AllApart(users) && RunOf(users, ops) by {
      assert forall u :: u in users ==> u == "u";
      assert GlobFree("u") && Apart("u", "u");
    }
    GuestTokenAcceptedIff(users, 0, [], ops[0], provided);
  }

  // ----- frames -----

  /** The operation may change the entry of the user's device: a logout that covers it, or a token issued for it. */
  predicate Concerns(s: State, op: Op, user: string, device: string) {
    match op
    case Logout(u, d) => u == user && (Truthy(d).None? || d == Some(device))
    case _ => match Issues(s.store, s.now, op)
      case Some(g) => g.user == user && g.device == Some(device)
      case None => false
  }

  /** An operation leaves the device entries of other users, and of other devices, as they were. */
  lemma OtherDevicesUnchanged(s: State, op: Op, user: string, device: string)
    requires Separate(op, user) && !Concerns(s, op, user, device)
    ensures SameEntry(s.store, Next(s, op).store, DeviceKey(user, device))
  {
    if op.Logout? {
      OtherDeviceLogout(s, op, user, device);
    } else if op.Revoke? {
      LegacyKeyApart(user, device, op.user);
    } else if Issues(s.store, s.now, op).Some? && (op.Finish? ==> op.checked in s.checked) {
      GrantIsPlain(s, op);
      GrantStep(s, op);
      var g := Issues(s.store, s.now, op).value;
      if g.device.Some? {
        DeviceKeyInjective(user, device, g.user, g.device.value);
      } else {
        LegacyKeyApart(user, device, g.user);
      }
    }
  }

  lemma OtherDeviceLogout(s: State, op: Op, user: string, device: string)
    requires op.Logout? && Separate(op, user) && !Concerns(s, op, user, device)
    ensures SameEntry(s.store, Next(s, op).store, DeviceKey(user, device))
  {
    LogoutMatches(op.user, user, device);
    LegacyKeyApart(user, device, op.user);
    if Truthy(op.from).Some? {
      DeviceKeyInjective(user, device, op.user, op.from.value);
    }
  }

  predicate SameEntry(a: Tokens, b: Tokens, key: string) {
    (key in b <==> key in a) && (key in a ==> b[key] == a[key])
  }

  /**
   * The operation may change the user's legacy entry: a logout of all devices, a revocation, or a
   * device-less token.
   */
  predicate ConcernsLegacy(s: State, op: Op, user: string) {
    match op
    case Logout(u, d) => u == user && Truthy(d).None?
    case Revoke(u) => u == user
    case _ => match Issues(s.store, s.now, op)
      case Some(g) => g.user == user && g.device == None
      case None => false
  }

  /** Every other operation, of this user or another, leaves the legacy entry as it was. */
  lemma OtherLegacyUnchanged(s: State, op: Op, user: string)
    requires Separate(op, user) && !ConcernsLegacy(s, op, user)
    ensures SameEntry(s.store, Next(s, op).store, LegacyKey(user))
  {
    if op.Logout? {
      OtherLegacyLogout(s, op, user);
    } else if op.Revoke? {
      LegacyKeyInjective(op.user, user);
    } else if Issues(s.store, s.now, op).Some? && (op.Finish? ==> op.checked in s.checked) {
      GrantIsPlain(s, op);
      GrantStep(s, op);
      var g := Issues(s.store, s.now, op).value;
      LegacyKeyInjective(g.user, user);
      if g.device.Some? {
        LegacyKeyApart(g.user, g.device.value, user);
      }
    }
  }

  lemma OtherLegacyLogout(s: State, op: Op, user: string)
    requires op.Logout? && Separate(op, user) && !ConcernsLegacy(s, op, user)
    ensures SameEntry(s.store, Next(s, op).store, LegacyKey(user))
  {
    LogoutMatches(op.user, user, "");
    LegacyKeyInjective(op.user, user);
    if Truthy(op.from).Some? {
      LegacyKeyApart(op.user, op.from.value, user);
    }
  }

  // ----- a logout during a refresh -----

  /** The write of a refresh that has passed its check issues a token that is accepted, whatever came in between. */
  lemma FinishIsAccepted(s: State, c: Checked, at: nat)
    requires c in s.checked && Truthy(c.token.deviceId).Some?
    ensures var s' := Next(s, Finish(c, at)); Accepts(s'.store, s'.now, RefreshGrant(c, at).token, None)
  {
    var g := RefreshGrant(c, at);
    assert g.device == c.token.deviceId && g.token.deviceId == g.device;
    assert Next(s, Finish(c, at)).store == Redis.Put(s.store, s.now, DeviceKey(g.user, g.device.value), g.token,
        g.days * DAY);
  }

  lemma LogoutForgets(s: State, out: Op, device: string)
    requires out.Logout? && (Truthy(out.from) == None || out.from == Some(device))
    ensures LastIssued(Next(s, out).history, out.user, device) == None
  {
    LastIssuedOneMore(s.history, LoggedOut(out.user, Truthy(out.from)), out.user, device);
  }

  /** After a logout that covers the device, no token for it is accepted. */
  lemma LoggedOutIsRefused(users: iset<string>, start: nat, ops: seq<Op>, from: Option<string>, t: Token)
    requires PatternFree(users) && AllApart(users) && RunOf(users, ops) && t.sub in users
    requires Truthy(t.deviceId).Some? && (Truthy(from) == None || from == t.deviceId)
    ensures var s := Next(After(start, ops), Op.Logout(t.sub, from)); !Accepts(s.store, s.now, t, None)
  {
    var out := Op.Logout(t.sub, from);
    AfterOneMore(start, ops, out);
    LogoutForgets(After(start, ops), out, t.deviceId.value);
    AcceptedIffLastIssued(users, start, ops + [out], t, None);
  }

  /**
   * The check and the write of a refresh are two steps. After a logout that covers the device, the
   * write issues an accepted token if and only if the check was passed before the logout.
   */
  lemma LogoutDuringRefreshIff(users: iset<string>, start: nat, ops: seq<Op>, c: Checked, from: Option<string>, at: nat)
    requires PatternFree(users) && AllApart(users) && RunOf(users, ops) && c.token.sub in users
    requires Truthy(c.token.deviceId).Some? && (Truthy(from) == None || from == c.token.deviceId)
    ensures var s := Next(Next(After(start, ops), Op.Logout(c.token.sub, from)), Finish(c, at));
            Accepts(s.store, s.now, RefreshGrant(c, at).token, None) <==> c in After(start, ops).checked
  {
    var s1 := Next(After(start, ops), Op.Logout(c.token.sub, from));
    if c in s1.checked {
      FinishIsAccepted(s1, c, at);
    } else {
      LoggedOutIsRefused(users, start, ops, from, RefreshGrant(c, at).token);
    }
  }

  /** Such a run exists: log in, pass the check, log out of all devices, and let the refresh write. */
  lemma LogoutDuringRefreshHappens()
    ensures var t, user := Sign("u", Some("d"), false, 0), User(true, false, None);
            var c := Checked(t, None, user);
            var s := After(0, [Op.Login("u", "d", false, 0), Check(t, None, Some(user))]);
            var s' := Next(Next(s, Op.Logout("u", None)), Finish(c, 1));
            c in s.checked && Accepts(s'.store, s'.now, RefreshGrant(c, 1).token, None)
  {
    var t, user := Sign("u", Some("d"), false, 0), User(true, false, None);
    var login, check := Op.Login("u", "d", false, 0), Check(t, None, Some(user));
    assert [login, check][..1] == [login] && [login][..0] == [];
    var s1 := After(0, [login]);
    assert s1 == Next(After(0, []), login);
    assert Redis.Lookup(s1.store, 0, DeviceKey("u", "d")) == Some(t);
    var s := Next(s1, check);
    assert After(0, [login, check]) == s;
    FinishIsAccepted(Next(s, Op.Logout("u", None)), Checked(t, None, user), 1);
  }
}
