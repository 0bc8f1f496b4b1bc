/** The names under which quota counters and login counters share one Redis database. */
module Keys {
  import opened Text

  const CAPABILITIES: set<string> := {"ai", "search", "fetch"}

  /** Application ids: a lower-case letter, then 2 to 62 of [a-z0-9_]. */
  predicate ApplicationId(s: string) {
    && 3 <= |s| <= 63
    && 'a' <= s[0] <= 'z'
    && forall i | 0 <= i < |s| :: 'a' <= s[i] <= 'z' || '0' <= s[i] <= '9' || s[i] == '_'
  }

  /** The first 24 hexadecimal digits of a SHA-256. */
  predicate LoginSubject(s: string) {
    |s| == 24 && forall i | 0 <= i < |s| :: 'a' <= s[i] <= 'f' || '0' <= s[i] <= '9'
  }

  function QuotaKey(namespace: string, application: string, capability: string): string {
    namespace + ":" + application + ":" + capability
  }

  function LoginKey(namespace: string, subject: string): string {
    namespace + ":admin-login:" + subject
  }

  /** Although namespaces may contain ':', a quota key determines its three parts. */
  lemma QuotaKeyInjective(n1: string, a1: string, c1: string, n2: string, a2: string, c2: string)
    requires ApplicationId(a1) && ApplicationId(a2)
    requires c1 in CAPABILITIES && c2 in CAPABILITIES
    requires QuotaKey(n1, a1, c1) == QuotaKey(n2, a2, c2)
    ensures n1 == n2 && a1 == a2 && c1 == c2
  {
    SplitAtLast(n1 + ":" + a1, c1, n2 + ":" + a2, c2, ':');
    SplitAtLast(n1, a1, n2, a2, ':');
  }

  /** A login counter is never some application's quota counter, whatever the two namespaces are. */
  lemma LoginKeyIsNoQuotaKey(n1: string, subject: string, n2: string, a: string, c: string)
    requires LoginSubject(subject) && ApplicationId(a) && c in CAPABILITIES
    ensures LoginKey(n1, subject) != QuotaKey(n2, a, c)
  {
    if LoginKey(n1, subject) == QuotaKey(n2, a, c) {
      assert n1 + ":admin-login:" + subject == (n1 + ":admin-login") + ":" + subject;
      SplitAtLast(n1 + ":admin-login", subject, n2 + ":" + a, c, ':');
      assert false;
    }
  }

  lemma LoginKeyInjective(n1: string, s1: string, n2: string, s2: string)
    requires LoginSubject(s1) && LoginSubject(s2)
    requires LoginKey(n1, s1) == LoginKey(n2, s2)
    ensures n1 == n2 && s1 == s2
  {
    var k := LoginKey(n1, s1);
    assert k[|k| - 24..] == s1 && k[|k| - 24..] == s2;
    assert k[..|k| - 24 - |":admin-login:"|] == n1 && k[..|k| - 24 - |":admin-login:"|] == n2;
  }
}
