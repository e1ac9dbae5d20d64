/**
 * The client cache of apps/api/src/modules/twilio/twilio-client.factory.ts: a 32-bit rolling
 * hash of the auth token is part of the cache key. Strings are sequences of UTF-16 code units.
 */
module TwilioClients {
  import opened JsNumbers

  newtype CodeUnit = c: int | 0 <= c < 0x1_0000

  type Text = seq<CodeUnit>

  const MAX_SAFE_INTEGER := 0x1F_FFFF_FFFF_FFFF

  // ---------------------------------------------------------------- the rolling hash

  lemma CongruentStep(x: int, y: int, c: int)
    requires Congruent(x, y)
    ensures Congruent(x * 31 + c, y * 31 + c)
  {
    var q := (x - y) / 0x1_0000_0000;
    assert x * 31 + c - (y * 31 + c) == 0x1_0000_0000 * (31 * q);
  }

  /** 31 is invertible modulo 2^32: 31 * 3186588639 == 23 * 2^32 + 1. */
  lemma CongruentUnstep(x: int, y: int, c: int)
    requires Congruent(x * 31 + c, y * 31 + c)
    ensures Congruent(x, y)
  {
    var d := x - y;
    var q := (31 * d) / 0x1_0000_0000;
    assert 31 * d == 0x1_0000_0000 * q;
    assert d == 0x1_0000_0000 * (3186588639 * q - 23 * d);
  }

  /** The base-31 polynomial of a token, without any wrap-around. */
  function Polynomial(token: Text): nat {
    if token == [] then 0 else Polynomial(token[..|token| - 1]) * 31 + token[|token| - 1] as int
  }

  function Fingerprint(token: Text): int {
    ToInt32(Polynomial(token))
  }

  /** One turn of the loop: the wide sum is an exact double, and wrapping it wraps the polynomial. */
  lemma HashStep(hash: int, p: int, c: CodeUnit)
    requires hash == ToInt32(p)
    ensures -MAX_SAFE_INTEGER <= hash * 31 + c as int <= MAX_SAFE_INTEGER
    ensures ToInt32(hash * 31 + c as int) == ToInt32(p * 31 + c as int)
  {
    CongruentStep(hash, p, c as int);
    SameInt32Iff(hash * 31 + c as int, p * 31 + c as int);
  }

  method ComputeFingerprint(token: Text) returns (hash: int)
    ensures hash == Fingerprint(token)
  {
    hash := 0;
    for i := 0 to |token|
      invariant hash == Fingerprint(token[..i])
    {
      assert token[..i + 1][..i] == token[..i];
      HashStep(hash, Polynomial(token[..i]), token[i]);
      hash := ToInt32(hash * 31 + token[i] as int);
    }
    assert token[..|token|] == token;
  }

  lemma StepCongruentIff(x: int, y: int, c: int)
    ensures Congruent(x * 31 + c, y * 31 + c) <==> Congruent(x, y)
  {
    if Congruent(x, y) {
      CongruentStep(x, y, c);
    } else if Congruent(x * 31 + c, y * 31 + c) {
      CongruentUnstep(x, y, c);
    }
  }

  /** A common last code unit can be dropped. */
  lemma DropLast(a: Text, b: Text)
    requires a != [] && b != [] && a[|a| - 1] == b[|b| - 1]
    ensures Fingerprint(a) == Fingerprint(b)
       <==> Fingerprint(a[..|a| - 1]) == Fingerprint(b[..|b| - 1])
  {
    var p, q, c := Polynomial(a[..|a| - 1]), Polynomial(b[..|b| - 1]), a[|a| - 1] as int;
    SameInt32Iff(p, q);
    SameInt32Iff(p * 31 + c, q * 31 + c);
    StepCongruentIff(p, q, c);
  }

  /** Equal-length tokens that differ in exactly one code unit never share a fingerprint. */
  lemma {:induction false} OneChangeChangesFingerprint(a: Text, b: Text, at: nat)
    requires DifferAt(a, b, at)
    ensures Fingerprint(a) != Fingerprint(b)
  {
    var n := |a| - 1;
    if at == n {
      assert a[..n] == b[..n];
      SameInt32Iff(Polynomial(a), Polynomial(b));
    } else {
      OneChangeChangesFingerprint(a[..n], b[..n], at);
      DropLast(a, b);
    }
  }

  /** Two changes can cancel, so a rotated token may keep its fingerprint: "Aa" and "BB". */
  lemma TwoChangesCollide()
    ensures Fingerprint([65, 97]) == Fingerprint([66, 66])
  {
  }

  // ---------------------------------------------------------------- decimal text

  const MINUS: CodeUnit := 45
  const COLON: CodeUnit := 58

  function DigitsOf(n: nat): (s: Text)
    ensures s != [] && forall c <- s :: 48 <= c <= 57
  {
    if n < 10 then [(48 + n) as CodeUnit] else DigitsOf(n / 10) + [(48 + n % 10) as CodeUnit]
  }

  function Decimal(x: int): Text {
    if x < 0 then [MINUS] + DigitsOf(-x) else DigitsOf(x)
  }

  lemma {:induction false} DigitsInjective(m: nat, n: nat)
    requires DigitsOf(m) == DigitsOf(n)
    ensures m == n
  {
    var s, t := DigitsOf(m), DigitsOf(n);
    assert s[|s| - 1] == t[|t| - 1];
    assert |s| > 1 <==> m >= 10;
    assert |t| > 1 <==> n >= 10;
    if m >= 10 {
      assert s[..|s| - 1] == DigitsOf(m / 10) && t[..|t| - 1] == DigitsOf(n / 10);
      DigitsInjective(m / 10, n / 10);
    }
  }

  lemma MinusIffNegative(x: int)
    ensures Decimal(x) != [] && (Decimal(x)[0] == MINUS <==> x < 0)
  {
    if x >= 0 {
      assert Decimal(x)[0] in DigitsOf(x);
    }
  }

  lemma DecimalInjective(x: int, y: int)
    requires Decimal(x) == Decimal(y)
    ensures x == y
  {
    MinusIffNegative(x);
    MinusIffNegative(y);
    if x < 0 {
      assert Decimal(x)[1..] == DigitsOf(-x) && Decimal(y)[1..] == DigitsOf(-y);
      DigitsInjective(-x, -y);
    } else {
      DigitsInjective(x, y);
    }
  }

  lemma DecimalHasNoColon(x: int)
    ensures COLON !in Decimal(x)
  {
  }

  /** The last colon splits a text in one way only. */
  lemma LastColonSplits(a: Text, d: Text, b: Text, e: Text)
    requires COLON !in d && COLON !in e
    requires a + [COLON] + d == b + [COLON] + e
    ensures a == b && d == e
  {
    var s, t := a + [COLON] + d, b + [COLON] + e;
    assert s[|a|] == COLON && t[|b|] == COLON;
    assert forall i :: |a| < i < |s| ==> s[i] == d[i - |a| - 1];
    assert forall i :: |b| < i < |t| ==> t[i] == e[i - |b| - 1];
    assert |a| == |b|;
    assert s[..|a|] == a && t[..|b|] == b;
    assert s[|a| + 1..] == d && t[|b| + 1..] == e;
  }

  // ---------------------------------------------------------------- the cache

  /** An empty API key is falsy, like a missing one. */
  datatype Credentials = Credentials(accountSid: Text, authToken: Text, apiKeySid: Text, apiKeySecret: Text)

  /** What a client authenticates with. */
  datatype Client =
    | KeyClient(apiKeySid: Text, apiKeySecret: Text, accountSid: Text)
    | TokenClient(accountSid: Text, authToken: Text)

  function NewClient(c: Credentials): Client {
    if c.apiKeySid != [] && c.apiKeySecret != [] then
      KeyClient(c.apiKeySid, c.apiKeySecret, c.accountSid)
    else TokenClient(c.accountSid, c.authToken)
  }

  const KEY_PREFIX: Text := [107, 101, 121, 58]
  const SID_PREFIX: Text := [115, 105, 100, 58]

  function CacheKey(c: Credentials): Text {
    if c.apiKeySid != [] then KEY_PREFIX + c.apiKeySid
    else SID_PREFIX + c.accountSid + [COLON] + Decimal(Fingerprint(c.authToken))
  }

  function Provided(cache: map<Text, Client>, c: Credentials): (map<Text, Client>, Client) {
    var key := CacheKey(c);
    if key in cache then (cache, cache[key]) else (cache[key := NewClient(c)], NewClient(c))
  }

  class TwilioClientFactory {
    var cache: map<Text, Client>

    constructor ()
      ensures cache == map[]
    {
      cache := map[];
    }

    method FromCredentials(creds: Credentials) returns (client: Client)
      modifies this
      ensures (cache, client) == Provided(old(cache), creds)
    {
      var key: Text;
      if creds.apiKeySid != [] {
        key := KEY_PREFIX + creds.apiKeySid;
      } else {
        var hash := ComputeFingerprint(creds.authToken);
        key := SID_PREFIX + creds.accountSid + [COLON] + Decimal(hash);
      }
      if key in cache {
        return cache[key];
      }
      if creds.apiKeySid != [] && creds.apiKeySecret != [] {
        client := KeyClient(creds.apiKeySid, creds.apiKeySecret, creds.accountSid);
      } else {
        client := TokenClient(creds.accountSid, creds.authToken);
      }
      cache := cache[key := client];
    }
  }

  function Run(calls: seq<Credentials>): map<Text, Client> {
    if calls == [] then map[] else Provided(Run(calls[..|calls| - 1]), calls[|calls| - 1]).0
  }

  predicate Seen(calls: seq<Credentials>, key: Text) {
    exists d <- calls :: CacheKey(d) == key
  }

  /** The first credentials in the history with the cache key of `c`; `c` itself if there are none. */
  function FirstWithKey(calls: seq<Credentials>, c: Credentials): Credentials {
    if calls == [] then c
    else
      var init, last := calls[..|calls| - 1], calls[|calls| - 1];
      if Seen(init, CacheKey(c)) then FirstWithKey(init, c)
      else if CacheKey(last) == CacheKey(c) then last
      else c
  }

  lemma SeenAppend(calls: seq<Credentials>, key: Text)
    requires calls != []
    ensures Seen(calls, key) <==>
      Seen(calls[..|calls| - 1], key) || CacheKey(calls[|calls| - 1]) == key
  {
  }

  /** After any history of calls, credentials get the client built for the first with their key. */
  lemma {:induction false} ServesFirstWithKey(calls: seq<Credentials>, c: Credentials)
    ensures CacheKey(c) in Run(calls) <==> Seen(calls, CacheKey(c))
    ensures Provided(Run(calls), c).1 == NewClient(FirstWithKey(calls, c))
  {
    if calls != [] {
      var init := calls[..|calls| - 1];
      ServesFirstWithKey(init, c);
      SeenAppend(calls, CacheKey(c));
    }
  }

  /** Which credentials share a client. */
  lemma SameKeyIff(a: Credentials, b: Credentials)
    ensures CacheKey(a) == CacheKey(b) <==>
      if a.apiKeySid != [] || b.apiKeySid != [] then a.apiKeySid == b.apiKeySid
      else a.accountSid == b.accountSid && Fingerprint(a.authToken) == Fingerprint(b.authToken)
  {
    assert CacheKey(a)[0] == (if a.apiKeySid != [] then 107 else 115);
    assert CacheKey(b)[0] == (if b.apiKeySid != [] then 107 else 115);
    if CacheKey(a) == CacheKey(b) {
      if a.apiKeySid != [] && b.apiKeySid != [] {
        assert CacheKey(a)[4..] == a.apiKeySid && CacheKey(b)[4..] == b.apiKeySid;
      } else if a.apiKeySid == [] && b.apiKeySid == [] {
        var d, e := Decimal(Fingerprint(a.authToken)), Decimal(Fingerprint(b.authToken));
        DecimalHasNoColon(Fingerprint(a.authToken));
        DecimalHasNoColon(Fingerprint(b.authToken));
        assert CacheKey(a) == (SID_PREFIX + a.accountSid) + [COLON] + d;
        assert CacheKey(b) == (SID_PREFIX + b.accountSid) + [COLON] + e;
        LastColonSplits(SID_PREFIX + a.accountSid, d, SID_PREFIX + b.accountSid, e);
        assert (SID_PREFIX + a.accountSid)[4..] == a.accountSid;
        assert (SID_PREFIX + b.accountSid)[4..] == b.accountSid;
        DecimalInjective(Fingerprint(a.authToken), Fingerprint(b.authToken));
      }
    }
  }

  /** Credentials share a client by their API key, or without one by account and token hash. */
  predicate Shares(a: Credentials, b: Credentials) {
    if a.apiKeySid != [] || b.apiKeySid != [] then a.apiKeySid == b.apiKeySid
    else a.accountSid == b.accountSid && Congruent(Polynomial(a.authToken), Polynomial(b.authToken))
  }

  lemma SharesIff(a: Credentials, b: Credentials)
    ensures Shares(a, b) <==> CacheKey(a) == CacheKey(b)
  {
    SameKeyIff(a, b);
    SameInt32Iff(Polynomial(a.authToken), Polynomial(b.authToken));
  }

  /** Call `i` is the first in the history that shares a client with `c`. */
  predicate FirstSharing(calls: seq<Credentials>, c: Credentials, i: nat)
    requires i < |calls|
  {
    Shares(calls[i], c) && forall j :: 0 <= j < i ==> !Shares(calls[j], c)
  }

  lemma SeenIff(calls: seq<Credentials>, c: Credentials)
    ensures Seen(calls, CacheKey(c)) <==> exists i :: 0 <= i < |calls| && Shares(calls[i], c)
  {
    forall d | d in calls ensures Shares(d, c) <==> CacheKey(d) == CacheKey(c) {
      SharesIff(d, c);
    }
    if i :| 0 <= i < |calls| && Shares(calls[i], c) {
      assert calls[i] in calls;
    }
  }

  lemma {:induction false} FirstWithKeyAt(calls: seq<Credentials>, c: Credentials, i: nat)
    requires i < |calls| && FirstSharing(calls, c, i)
    ensures FirstWithKey(calls, c) == calls[i]
  {
    var init, last := calls[..|calls| - 1], calls[|calls| - 1];
    SeenIff(init, c);
    if i < |init| {
      assert Shares(init[i], c);
      FirstWithKeyAt(init, c, i);
    } else {
      SharesIff(last, c);
    }
  }

  lemma {:induction false} FirstWithKeyNone(calls: seq<Credentials>, c: Credentials)
    requires forall i :: 0 <= i < |calls| ==> !Shares(calls[i], c)
    ensures FirstWithKey(calls, c) == c
  {
    if calls != [] {
      SeenIff(calls[..|calls| - 1], c);
      SharesIff(calls[|calls| - 1], c);
    }
  }

  /** If some call shares a client with `c`, there is a first. */
  lemma {:induction false} SomeFirst(calls: seq<Credentials>, c: Credentials, i: nat) returns (first: nat)
    requires i < |calls| && Shares(calls[i], c)
    ensures first <= i && FirstSharing(calls, c, first)
  {
    if j :| 0 <= j < i && Shares(calls[j], c) {
      first := SomeFirst(calls, c, j);
    } else {
      first := i;
    }
  }

  /** After any history, credentials get a client of their own exactly when the first call that shares one agrees. */
  lemma OwnClientIff(calls: seq<Credentials>, c: Credentials)
    ensures Provided(Run(calls), c).1 == NewClient(c) <==>
      forall i :: 0 <= i < |calls| && FirstSharing(calls, c, i) ==> NewClient(calls[i]) == NewClient(c)
  {
    ServesFirstWithKey(calls, c);
    if i :| 0 <= i < |calls| && Shares(calls[i], c) {
      var first := SomeFirst(calls, c, i);
      FirstWithKeyAt(calls, c, first);
      forall k | 0 <= k < |calls| && FirstSharing(calls, c, k) ensures calls[k] == calls[first] {
        FirstWithKeyAt(calls, c, k);
      }
    } else {
      FirstWithKeyNone(calls, c);
    }
  }

  /**
   * A token without an API key gets a client that uses it, after any history, exactly when the
   * first call without an API key on the account whose token has a congruent polynomial, if
   * there is one, had the same token.
   */
  lemma TokenRotation(calls: seq<Credentials>, c: Credentials)
    requires c.apiKeySid == []
    ensures Provided(Run(calls), c).1 == NewClient(c) <==>
      forall i :: 0 <= i < |calls| && FirstSharing(calls, c, i) ==> calls[i].authToken == c.authToken
  {
    OwnClientIff(calls, c);
  }

  /**
   * Credentials with an API key get a client of their own, after any history, exactly when the
   * first call with that API key, if there is one, was for the same account with the same secret
   * and, where there is no secret, the same token.
   */
  lemma SecretRotation(calls: seq<Credentials>, c: Credentials)
    requires c.apiKeySid != []
    ensures Provided(Run(calls), c).1 == NewClient(c) <==>
      forall i :: 0 <= i < |calls| && FirstSharing(calls, c, i) ==>
        && calls[i].accountSid == c.accountSid
        && calls[i].apiKeySecret == c.apiKeySecret
        && (c.apiKeySecret == [] ==> calls[i].authToken == c.authToken)
  {
    OwnClientIff(calls, c);
  }

  /** The account a client acts for, and the name and password it signs in with. */
  function Account(client: Client): Text { client.accountSid }

  function User(client: Client): Text {
    match client
    case KeyClient(apiKeySid, _, _) => apiKeySid
    case TokenClient(accountSid, _) => accountSid
  }

  function Password(client: Client): Text {
    match client
    case KeyClient(_, apiKeySecret, _) => apiKeySecret
    case TokenClient(_, authToken) => authToken
  }

  /** The first credentials to get a client sign in as themselves: with the API key if it is whole, else the token. */
  lemma FirstSignsInAsItself(calls: seq<Credentials>, c: Credentials)
    requires forall i :: 0 <= i < |calls| ==> !Shares(calls[i], c)
    ensures var client := Provided(Run(calls), c).1;
      && Account(client) == c.accountSid
      && (c.apiKeySid != [] && c.apiKeySecret != [] ==>
            User(client) == c.apiKeySid && Password(client) == c.apiKeySecret)
      && (c.apiKeySid == [] || c.apiKeySecret == [] ==>
            User(client) == c.accountSid && Password(client) == c.authToken)
  {
    FirstWithKeyNone(calls, c);
    ServesFirstWithKey(calls, c);
  }

  /** An API key used with two accounts: the second is served the client of the first. */
  lemma SharedApiKeyCrossesAccounts(a: Credentials, b: Credentials)
    requires a.apiKeySid == b.apiKeySid != [] && a.accountSid != b.accountSid
    ensures Provided(Run([a]), b).1 == NewClient(a) != NewClient(b)
  {
    assert FirstSharing([a], b, 0);
    FirstWithKeyAt([a], b, 0);
    ServesFirstWithKey([a], b);
  }

  predicate DifferAt(a: Text, b: Text, at: nat) {
    && |a| == |b| && at < |a| && a[at] != b[at]
    && (forall i :: 0 <= i < |a| && i != at ==> a[i] == b[i])
  }

  predicate DifferInOne(a: Text, b: Text) {
    exists at :: 0 <= at < |a| && DifferAt(a, b, at)
  }

  lemma {:induction false} FirstWithKeyShares(calls: seq<Credentials>, c: Credentials)
    ensures var d := FirstWithKey(calls, c);
      (d == c || d in calls) && CacheKey(d) == CacheKey(c)
  {
    if calls != [] {
      FirstWithKeyShares(calls[..|calls| - 1], c);
    }
  }

  /**
   * In any history: if every token the account used before differs from the new one in exactly
   * one code unit, or is the new one, the new token gets a client that uses it.
   */
  lemma SmallRotationsNeverStale(calls: seq<Credentials>, c: Credentials)
    requires c.apiKeySid == []
    requires forall d <- calls :: d.apiKeySid == [] && d.accountSid == c.accountSid ==>
      d.authToken == c.authToken || DifferInOne(d.authToken, c.authToken)
    ensures Provided(Run(calls), c).1 == NewClient(c)
  {
    var d := FirstWithKey(calls, c);
    FirstWithKeyShares(calls, c);
    SameKeyIff(d, c);
    ServesFirstWithKey(calls, c);
    if d.authToken != c.authToken {
      var at :| 0 <= at < |d.authToken| && DifferAt(d.authToken, c.authToken, at);
      OneChangeChangesFingerprint(d.authToken, c.authToken, at);
    }
  }
}
