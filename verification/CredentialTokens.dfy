/** Credential tokens: how they are printed, parsed, and turned into the message of their MAC. */
module CredentialTokens {
  import opened Common

  /** The alphabet of token_urlsafe. */
  predicate UrlSafe(s: string) {
    forall i | 0 <= i < |s| ::
      'a' <= s[i] <= 'z' || 'A' <= s[i] <= 'Z' || '0' <= s[i] <= '9' || s[i] == '-' || s[i] == '_'
  }

  /** An id and a secret that issuing can produce: no '.' in either, and a secret of at least 32. */
  predicate Issuable(id: string, secret: string) {
    id != "" && UrlSafe(id) && UrlSafe(secret) && |secret| >= 32
  }

  function ReplaceDashes(s: string): (r: string)
    ensures |r| == |s|
    ensures forall i | 0 <= i < |s| :: r[i] == if s[i] == '-' then 'x' else if s[i] == '_' then 'y' else s[i]
  {
    seq(|s|, i requires 0 <= i < |s| => if s[i] == '-' then 'x' else if s[i] == '_' then 'y' else s[i])
  }

  /** The bytes that are authenticated. */
  function Message(id: string, secret: string): string { id + "." + secret }

  function Print(id: string, secret: string): string { "cc_" + Message(id, secret) }

  /** str.split(c, 1) of a string that contains c. */
  function SplitFirst(s: string, c: char): (r: (string, string))
    requires c in s
    ensures s == r.0 + [c] + r.1 && c !in r.0
  {
    if s[0] == c then ("", s[1..])
    else
      var (a, b) := SplitFirst(s[1..], c);
      assert s == [s[0]] + s[1..];
      ([s[0]] + a, b)
  }

  function Parse(token: string): Option<(string, string)> {
    if !("cc_" <= token) || '.' !in token then None
    else
      assert '.' in token[3..] by {
        var i :| 0 <= i < |token| && token[i] == '.';
        assert token[i] == token[3..][i - 3];
      }
      var (id, secret) := SplitFirst(token[3..], '.');
      if id == "" || |secret| < 32 then None else Some((id, secret))
  }

  /** Issuing: the random strings are inputs. */
  method IssueCredential(randomId: string, randomSecret: string, mac: string -> Digest)
    returns (id: string, token: string, digest: Digest)
    requires UrlSafe(randomId) && randomId != "" && UrlSafe(randomSecret) && |randomSecret| >= 32
    ensures |id| == |randomId|
    ensures forall i | 0 <= i < |id| ::
              id[i] == if randomId[i] == '-' then 'x' else if randomId[i] == '_' then 'y' else randomId[i]
    ensures token == "cc_" + id + "." + randomSecret
    ensures Issuable(id, randomSecret)
    ensures Parse(token) == Some((id, randomSecret))
    ensures digest == mac(token[3..])
  {
    id := ReplaceDashes(randomId);
    token := Print(id, randomSecret);
    assert token == "cc_" + id + "." + randomSecret;
    digest := mac(Message(id, randomSecret));
    IssuedParses(id, randomSecret);
    ParsedPrints(token);
  }

  lemma SplitFirstUnique(a: string, b: string, c: char)
    requires c !in a
    ensures c in a + [c] + b && SplitFirst(a + [c] + b, c) == (a, b)
  {
    var s := a + [c] + b;
    assert s[|a|] == c;
    var (x, y) := SplitFirst(s, c);
    assert forall i | 0 <= i < |a| :: s[i] == a[i];
    assert s[|x|] == c;
    assert |x| == |a|;
    assert s[..|a|] == a && s[..|x|] == x;
    assert s[|a| + 1..] == b && s[|x| + 1..] == y;
  }

  /** Parsing an issued token returns its id and its secret. */
  lemma IssuedParses(id: string, secret: string)
    requires Issuable(id, secret)
    ensures Parse(Print(id, secret)) == Some((id, secret))
  {
    var token := Print(id, secret);
    assert token[3..] == id + ['.'] + secret;
    assert token[3 + |id|] == '.';
    SplitFirstUnique(id, secret, '.');
  }

  /** A successful parse reprints to the same token, and the MAC message is the token without "cc_". */
  lemma ParsedPrints(token: string)
    requires Parse(token).Some?
    ensures var (id, secret) := Parse(token).value;
      Print(id, secret) == token && Message(id, secret) == token[3..] && '.' !in id && id != "" && |secret| >= 32
  {
    assert token == "cc_" + token[3..];
  }

  /** What parses, on the text alone: a prefix, a first point with something before it, and at least 32
      characters after it. */
  lemma ParsesExactly(token: string, id: string, secret: string)
    ensures Parse(token) == Some((id, secret)) <==>
              token == "cc_" + id + "." + secret && '.' !in id && id != "" && |secret| >= 32
  {
    if Parse(token) == Some((id, secret)) {
      ParsedPrints(token);
      assert Print(id, secret) == "cc_" + id + "." + secret;
    } else if token == "cc_" + id + "." + secret && '.' !in id && id != "" && |secret| >= 32 {
      assert token[3..] == id + ['.'] + secret && token[3 + |id|] == '.';
      SplitFirstUnique(id, secret, '.');
    }
  }

  /** Distinct parseable tokens have distinct parts and distinct MAC messages. */
  lemma ParseInjective(s: string, t: string)
    requires Parse(s).Some? && Parse(t).Some? && s != t
    ensures Parse(s) != Parse(t)
    ensures Message(Parse(s).value.0, Parse(s).value.1) != Message(Parse(t).value.0, Parse(t).value.1)
  {
    ParsedPrints(s);
    ParsedPrints(t);
  }
}
