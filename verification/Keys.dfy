/** The strings under which the gateway stores its state in Redis: one per session binding and
    one per operation (affinity store), one per tenant bucket and one per user bucket (rate limiter). */
module Keys {
  import opened Wrappers

  datatype SessionKey = SessionKey(tenant: string, userId: string, sessionId: string) {
    /** A key without a session id is never bound. */
    predicate IsZero() { sessionId == "" }

    /** Tenant and user contain no separator; the session id may be any string. */
    predicate Clean() { '|' !in tenant && '|' !in userId }
  }

  function SessionRedisKey(prefix: string, k: SessionKey): string {
    prefix + ":s:" + k.tenant + "|" + k.userId + "|" + k.sessionId
  }

  function OpRedisKey(prefix: string, op: string): string {
    prefix + ":o:" + op
  }

  function TenantBucketKey(prefix: string, tenant: string): string {
    prefix + ":t:" + tenant
  }

  function UserBucketKey(prefix: string, tenant: string, user: string): string {
    prefix + ":u:" + tenant + "|" + user
  }

  // ---- Reading a key back ------------------------------------------------

  /** Cut a string at its first separator. */
  function Cut(s: string): (r: Option<(string, string)>)
    ensures r.None? <==> '|' !in s
    ensures r.Some? ==> s == r.value.0 + "|" + r.value.1 && '|' !in r.value.0
  {
    if s == "" then None
    else if s[0] == '|' then Some(("", s[1..]))
    else
      match Cut(s[1..])
      case None => None
      case Some((head, tail)) => Some(([s[0]] + head, tail))
  }

  function DecodeSession(prefix: string, s: string): Option<SessionKey> {
    var start := prefix + ":s:";
    if !(start <= s) then None
    else
      match Cut(s[|start|..])
      case None => None
      case Some((tenant, rest)) =>
        match Cut(rest)
        case None => None
        case Some((user, session)) => Some(SessionKey(tenant, user, session))
  }

  function DecodeUserBucket(prefix: string, s: string): Option<(string, string)> {
    var start := prefix + ":u:";
    if start <= s then Cut(s[|start|..]) else None
  }

  lemma {:induction false} CutJoin(head: string, tail: string)
    ensures Cut(head + "|" + tail).Some?
    ensures Cut(head + "|" + tail) == Some((head, tail)) <==> '|' !in head
  {
    var s := head + "|" + tail;
    assert s[|head|] == '|';
    if head == "" {
      assert s[1..] == tail;
    } else {
      assert s[1..] == head[1..] + "|" + tail;
      CutJoin(head[1..], tail);
      assert head == [head[0]] + head[1..];
    }
  }

  lemma SessionKeyTail(prefix: string, k: SessionKey)
    ensures prefix + ":s:" <= SessionRedisKey(prefix, k)
    ensures SessionRedisKey(prefix, k)[|prefix + ":s:"|..]
         == k.tenant + "|" + (k.userId + "|" + k.sessionId)
  {
    var s := SessionRedisKey(prefix, k);
    var start := prefix + ":s:";
    var tail := k.tenant + "|" + (k.userId + "|" + k.sessionId);
    assert s == start + tail;
  }

  /** Reading a session key back yields a clean key stored under the same string; it yields the
      original key exactly when that key is clean. So clean keys never collide, and every other key
      shares its string with a different, clean one. */
  lemma SessionKeyRoundTrip(prefix: string, k: SessionKey)
    ensures DecodeSession(prefix, SessionRedisKey(prefix, k)) == Some(k) <==> k.Clean()
    ensures var d := DecodeSession(prefix, SessionRedisKey(prefix, k));
            d.Some? && d.value.Clean() && SessionRedisKey(prefix, d.value) == SessionRedisKey(prefix, k)
  {
    SessionKeyTail(prefix, k);
    var rest := k.userId + "|" + k.sessionId;
    var body := k.tenant + "|" + rest;
    CutJoin(k.tenant, rest);
    CutJoin(k.userId, k.sessionId);
    var (tenant, tail) := Cut(body).value;
    if '|' in k.tenant {
      BarSurvivesCut(k.tenant, rest);
    }
    assert Cut(tail).Some?;
    var (user, session) := Cut(tail).value;
    var d := SessionKey(tenant, user, session);
    assert DecodeSession(prefix, SessionRedisKey(prefix, k)) == Some(d);
    SessionKeyTail(prefix, d);
    assert SessionRedisKey(prefix, d) == prefix + ":s:" + (tenant + "|" + (user + "|" + session));
    assert SessionRedisKey(prefix, k) == prefix + ":s:" + body;
    assert tenant + "|" + (user + "|" + session) == body;
  }

  /** When the head itself contains a separator, the cut falls inside it and a separator remains. */
  lemma {:induction false} BarSurvivesCut(head: string, tail: string)
    requires '|' in head
    ensures Cut(head + "|" + tail).Some? && '|' in Cut(head + "|" + tail).value.1
  {
    var s := head + "|" + tail;
    CutJoin(head, tail);
    var (h, t) := Cut(s).value;
    var i :| 0 <= i < |head| && head[i] == '|';
    assert s[i] == '|' && (h + "|" + t)[i] == '|';
    assert |h| <= i;
    assert s[|head|] == '|' == (h + "|" + t)[|head|];
    assert t[|head| - |h| - 1] == '|';
  }

  lemma SessionKeyInjective(prefix: string, a: SessionKey, b: SessionKey)
    requires a.Clean() && b.Clean()
    requires SessionRedisKey(prefix, a) == SessionRedisKey(prefix, b)
    ensures a == b
  {
    SessionKeyRoundTrip(prefix, a);
    SessionKeyRoundTrip(prefix, b);
  }

  lemma SessionAndOpKeysDiffer(prefix: string, k: SessionKey, op: string)
    ensures SessionRedisKey(prefix, k) != OpRedisKey(prefix, op)
  {
    SessionKeyTail(prefix, k);
    assert SessionRedisKey(prefix, k)[|prefix| + 1] == 's';
    assert OpRedisKey(prefix, op)[|prefix| + 1] == 'o';
  }

  lemma OpKeyInjective(prefix: string, a: string, b: string)
    ensures OpRedisKey(prefix, a) == OpRedisKey(prefix, b) <==> a == b
  {
    assert OpRedisKey(prefix, a)[|prefix| + 3..] == a;
    assert OpRedisKey(prefix, b)[|prefix| + 3..] == b;
  }

  /** The user-bucket key reads back exactly when the tenant has no separator; the user may be any
      string. Otherwise the bucket is also that of another tenant, one without a separator. */
  lemma UserBucketKeyRoundTrip(prefix: string, tenant: string, user: string)
    ensures DecodeUserBucket(prefix, UserBucketKey(prefix, tenant, user)) == Some((tenant, user))
       <==> '|' !in tenant
    ensures var d := DecodeUserBucket(prefix, UserBucketKey(prefix, tenant, user));
      && d.Some? && '|' !in d.value.0
      && UserBucketKey(prefix, d.value.0, d.value.1) == UserBucketKey(prefix, tenant, user)
  {
    var start := prefix + ":u:";
    assert UserBucketKey(prefix, tenant, user) == start + (tenant + "|" + user);
    CutJoin(tenant, user);
    var (t, u) := Cut(tenant + "|" + user).value;
    assert UserBucketKey(prefix, t, u) == start + (t + "|" + u);
  }

  lemma BucketKeysDiffer(prefix: string, t: string, tenant: string, user: string)
    ensures TenantBucketKey(prefix, t) != UserBucketKey(prefix, tenant, user)
    ensures forall t' :: TenantBucketKey(prefix, t) == TenantBucketKey(prefix, t') ==> t == t'
  {
    assert TenantBucketKey(prefix, t)[|prefix| + 1] == 't';
    assert UserBucketKey(prefix, tenant, user) == prefix + ":u:" + (tenant + "|" + user);
    assert UserBucketKey(prefix, tenant, user)[|prefix| + 1] == 'u';
    forall t' | TenantBucketKey(prefix, t) == TenantBucketKey(prefix, t')
      ensures t == t'
    {
      assert TenantBucketKey(prefix, t)[|prefix| + 3..] == t;
      assert TenantBucketKey(prefix, t')[|prefix| + 3..] == t';
    }
  }
}
