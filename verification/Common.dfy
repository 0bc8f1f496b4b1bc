/** Result types shared by every component of the model. */
module Common {
  datatype Option<+T> = None | Some(value: T)

  datatype Result<+T, +E> = Ok(value: T) | Err(error: E)

  /** The value of a one-way function (SHA-256, HMAC), of which only equality matters. */
  datatype Digest = Digest(code: nat)

  function Min(a: int, b: int): int { if a <= b then a else b }

  function Max(a: int, b: int): int { if a <= b then b else a }
}

/** The string operations of Python that the components rely on. */
module Text {

  /** The characters that str.strip() removes. */
  predicate IsSpace(c: char) {
    || '\U{0009}' <= c <= '\U{000D}'
    || '\U{001C}' <= c <= '\U{0020}'
    || c in {'\U{0085}', '\U{00A0}', '\U{1680}', '\U{2028}', '\U{2029}', '\U{202F}', '\U{205F}', '\U{3000}'}
    || '\U{2000}' <= c <= '\U{200A}'
  }

  /** The same characters by their code points. */
  lemma SpacesAre(c: char)
    ensures var n := c as int;
      IsSpace(c) <==>
        || 9 <= n <= 13 || 28 <= n <= 32 || n == 133 || n == 160 || n == 5760
        || 8192 <= n <= 8202 || n == 8232 || n == 8233 || n == 8239 || n == 8287 || n == 12288
  {
  }

  function StripLeft(s: string): (r: string)
    ensures r == [] || !IsSpace(r[0])
    ensures |r| <= |s| && r == s[|s| - |r|..]
  {
    if s != [] && IsSpace(s[0]) then StripLeft(s[1..]) else s
  }

  function StripRight(s: string): (r: string)
    ensures r == [] || !IsSpace(r[|r| - 1])
    ensures |r| <= |s| && r == s[..|r|]
  {
    if s != [] && IsSpace(s[|s| - 1]) then StripRight(s[..|s| - 1]) else s
  }

  /** str.strip() */
  function Strip(s: string): (r: string)
    ensures r == [] || (!IsSpace(r[0]) && !IsSpace(r[|r| - 1]))
  {
    StripRight(StripLeft(s))
  }

  /** Stripping removes white space at both ends, and nothing else. */
  lemma StripMeans(s: string) returns (i: nat, j: nat)
    ensures i <= j <= |s| && Strip(s) == s[i..j]
    ensures forall k | 0 <= k < i || j <= k < |s| :: IsSpace(s[k])
    ensures i < j ==> !IsSpace(s[i]) && !IsSpace(s[j - 1])
  {
    hide IsSpace, StripLeft, StripRight;
    i := LeftEnd(s);
    var n := RightEnd(s[i..]);
    j := i + n;
    assert s[i..][..n] == s[i..j];
    forall k | j <= k < |s| ensures IsSpace(s[k]) {
      assert s[k] == s[i..][k - i];
    }
  }

  lemma {:induction false} LeftEnd(s: string) returns (i: nat)
    ensures i <= |s| && StripLeft(s) == s[i..] && forall k | 0 <= k < i :: IsSpace(s[k])
  {
    if s != [] && IsSpace(s[0]) {
      i := LeftEnd(s[1..]);
      assert forall k | 1 <= k < i + 1 :: s[k] == s[1..][k - 1];
      i := i + 1;
    } else {
      i := 0;
    }
  }

  lemma {:induction false} RightEnd(s: string) returns (j: nat)
    ensures j <= |s| && StripRight(s) == s[..j] && forall k | j <= k < |s| :: IsSpace(s[k])
  {
    if s != [] && IsSpace(s[|s| - 1]) {
      j := RightEnd(s[..|s| - 1]);
    } else {
      j := |s|;
    }
  }

  predicate AllSpace(s: string) { forall i | 0 <= i < |s| :: IsSpace(s[i]) }

  /** So what is between white space is found whole. */
  lemma StripFinds(a: string, s: string, b: string)
    requires AllSpace(a) && AllSpace(b) && Trimmed(s)
    ensures Strip(a + s + b) == s
  {
    var t := a + s + b;
    assert forall k | 0 <= k < |a| :: t[k] == a[k];
    assert forall k | |a| + |s| <= k < |t| :: t[k] == b[k - |a| - |s|];
    assert t[|a|] == s[0] && t[|a| + |s| - 1] == s[|s| - 1];
    var i, j := StripMeans(t);
    assert i == |a| && j == |a| + |s|;
    assert t[i..j] == s;
  }

  lemma StripEmpty()
    ensures Strip("") == ""
  {
  }

  predicate IsBlank(s: string) { Strip(s) == "" }

  predicate Trimmed(s: string) {
    s != "" && !IsSpace(s[0]) && !IsSpace(s[|s| - 1])
  }

  /** Lexicographic order of code points: the order SQLite's BINARY collation gives ASCII text. */
  predicate LexLess(s: string, t: string) {
    t != "" && (s == "" || s[0] < t[0] || (s[0] == t[0] && LexLess(s[1..], t[1..])))
  }

  lemma {:induction false} LessTransitive(s: string, t: string, u: string)
    requires LexLess(s, t) && LexLess(t, u)
    ensures LexLess(s, u)
  {
    if s != "" && s[0] == t[0] == u[0] {
      LessTransitive(s[1..], t[1..], u[1..]);
    }
  }

  lemma {:induction false} LessTotal(s: string, t: string)
    ensures s == t || LexLess(s, t) || LexLess(t, s)
  {
    if s != "" && t != "" && s[0] == t[0] {
      LessTotal(s[1..], t[1..]);
      assert s == [s[0]] + s[1..] && t == [t[0]] + t[1..];
    }
  }

  /** Any texts have a first one in this order. */
  lemma {:induction false} Least(texts: set<string>)
    requires texts != {}
    ensures exists m :: m in texts && forall d | d in texts :: d == m || LexLess(m, d)
  {
    hide LexLess;
    var x :| x in texts;
    var rest := texts - {x};
    assert forall d | d in texts :: d == x || d in rest;
    if rest != {} {
      Least(rest);
      var m :| m in rest && forall d | d in rest :: d == m || LexLess(m, d);
      LessTotal(x, m);
      if LexLess(x, m) {
        forall d | d in rest ensures LexLess(x, d) {
          if d != m { LessTransitive(x, m, d); }
        }
        assert x in texts && forall d | d in texts :: d == x || LexLess(x, d);
      } else {
        assert m in texts && forall d | d in texts :: d == m || LexLess(m, d);
      }
    } else {
      assert x in texts && forall d | d in texts :: d == x || LexLess(x, d);
    }
  }

  /** Cutting at the last separator is unambiguous when neither tail contains it. */
  lemma SplitAtLast(p: string, x: string, q: string, y: string, c: char)
    requires p + [c] + x == q + [c] + y
    requires c !in x && c !in y
    ensures p == q && x == y
  {
    var s, t := p + [c] + x, q + [c] + y;
    assert forall k | |p| < k < |s| :: s[k] == x[k - |p| - 1];
    assert forall k | |q| < k < |t| :: t[k] == y[k - |q| - 1];
    assert s[|p|] == c && t[|q|] == c;
    assert s[..|p|] == p && t[..|q|] == q;
    assert s[|p| + 1..] == x && t[|q| + 1..] == y;
  }
}
