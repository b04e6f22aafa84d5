/**
 * The two key namespaces of the configuration store. Both are plain
 * string prefixes on keys of one flat store: `secret:` marks the secret
 * namespace and `default:` marks the fallback value of a key.
 */
module Namespace {

  const SECRET_PREFIX: string := "secret:"
  const DEFAULT_PREFIX: string := "default:"

  /** `sub` occurs in `s` starting at position `j`. */
  predicate OccursAt(s: string, sub: string, j: int)
  {
    0 <= j && j + |sub| <= |s| && s[j..j + |sub|] == sub
  }

  /** Dropping the first character of `s` shifts every occurrence left by one. */
  lemma OccursAtTail(s: string, sub: string)
    requires |s| > 0
    ensures forall j :: 1 <= j ==> (OccursAt(s, sub, j) <==> OccursAt(s[1..], sub, j - 1))
  {
    forall j | 1 <= j
      ensures OccursAt(s, sub, j) <==> OccursAt(s[1..], sub, j - 1)
    {
      if j + |sub| <= |s| {
        var a, b := s[j..j + |sub|], s[1..][j - 1..j - 1 + |sub|];
        assert forall i :: 0 <= i < |sub| ==> a[i] == b[i];
        assert a == b;
      }
    }
  }

  /**
   * The least character position at which `sub` occurs in `s`, or -1 when
   * it occurs nowhere. Go's strings.Index counts bytes instead; the two
   * agree on whether the result is 0, the only test the handlers make.
   */
  function IndexOf(s: string, sub: string): (r: int)
    ensures r == -1 || OccursAt(s, sub, r)
    ensures r >= 0 ==> forall j :: 0 <= j < r ==> !OccursAt(s, sub, j)
    ensures r == -1 ==> forall j :: !OccursAt(s, sub, j)
    decreases |s|
  {
    if |s| < |sub| then -1
    else if s[..|sub|] == sub then 0
    else
      var t := IndexOf(s[1..], sub);
      OccursAtTail(s, sub);
      if t == -1 then -1 else t + 1
  }

  /** The handlers' membership test `strings.Index(key, "secret:") == 0`. */
  predicate InSecretNamespace(key: string)
  {
    IndexOf(key, SECRET_PREFIX) == 0
  }

  /** Index 0 is exactly the prefix test. */
  lemma IndexZeroIffPrefix(s: string, sub: string)
    ensures IndexOf(s, sub) == 0 <==> sub <= s
  {
    if sub <= s {
      assert OccursAt(s, sub, 0);
    }
  }

  /** The secret test is a prefix test, in both directions. */
  lemma SecretNamespaceIsPrefix(key: string)
    ensures InSecretNamespace(key) <==> SECRET_PREFIX <= key
  {
    IndexZeroIffPrefix(key, SECRET_PREFIX);
  }

  /** The key `"secret:" + k` under which the secret handlers store `k`. */
  function SecretKey(k: string): (r: string)
    ensures InSecretNamespace(r)
    ensures |r| == |SECRET_PREFIX| + |k| && r[|SECRET_PREFIX|..] == k
  {
    var r := SECRET_PREFIX + k;
    SecretNamespaceIsPrefix(r);
    r
  }

  /** The key `"default:" + k` that holds the fallback value of `k`. */
  function DefaultKey(k: string): (r: string)
    ensures !InSecretNamespace(r)
    ensures r != k
    ensures |r| == |DEFAULT_PREFIX| + |k| && r[|DEFAULT_PREFIX|..] == k
  {
    var r := DEFAULT_PREFIX + k;
    SecretNamespaceIsPrefix(r);
    assert r[0] != SECRET_PREFIX[0];
    r
  }

  /** Distinct keys have distinct secret keys and distinct default keys. */
  lemma PrefixedKeysInjective(k1: string, k2: string)
    requires k1 != k2
    ensures SecretKey(k1) != SecretKey(k2)
    ensures DefaultKey(k1) != DefaultKey(k2)
  {
  }

  /** No default key is a secret key: the two namespaces are disjoint. */
  lemma DefaultAndSecretDisjoint(k1: string, k2: string)
    ensures DefaultKey(k1) != SecretKey(k2)
  {
  }
}
