/**
 * The `hasHost` test of the url-type package, which `resolveNext` uses to
 * refuse redirect targets that leave the site. Its code is not part of this
 * model; it is modelled by the authority rule of RFC 3986, section 3: a
 * reference has a host when it begins with `//` (a network-path reference)
 * or with a scheme (a letter, then letters, digits, `+`, `-` or `.`)
 * followed by `://`.
 */
module UrlType {

  predicate IsAsciiLetter(c: char) {
    'A' <= c <= 'Z' || 'a' <= c <= 'z'
  }

  predicate IsSchemeChar(c: char) {
    IsAsciiLetter(c) || '0' <= c <= '9' || c == '+' || c == '-' || c == '.'
  }

  /** `s[i..k]` is made of scheme characters and `://` follows it. */
  predicate SchemeEndsAt(s: string, i: nat, k: nat) {
    i <= k && k + 3 <= |s| && (forall j :: i <= j < k ==> IsSchemeChar(s[j]))
    && s[k] == ':' && s[k + 1] == '/' && s[k + 2] == '/'
  }

  /** `s[i..]` continues a scheme and then reaches `://`. */
  predicate SchemeThenAuthority(s: string, i: nat)
    decreases |s| - i
  {
    if i >= |s| then false
    else if s[i] == ':' then i + 3 <= |s| && s[i + 1] == '/' && s[i + 2] == '/'
    else IsSchemeChar(s[i]) && SchemeThenAuthority(s, i + 1)
  }

  /** The scan agrees with the declarative reading of a scheme followed by `://`. */
  lemma {:induction false} SchemeThenAuthorityIff(s: string, i: nat)
    ensures SchemeThenAuthority(s, i) <==> exists k :: SchemeEndsAt(s, i, k)
    decreases |s| - i
  {
    if i < |s| && s[i] != ':' {
      SchemeThenAuthorityIff(s, i + 1);
      if SchemeThenAuthority(s, i) {
        var k :| SchemeEndsAt(s, i + 1, k);
        assert SchemeEndsAt(s, i, k);
      }
      if exists k :: SchemeEndsAt(s, i, k) {
        var k :| SchemeEndsAt(s, i, k);
        assert k != i;
        assert SchemeEndsAt(s, i + 1, k);
      }
    } else if i < |s| {
      if SchemeThenAuthority(s, i) {
        assert SchemeEndsAt(s, i, i);
      }
    }
  }

  /** A network-path reference, or a scheme followed by `://`. */
  predicate HasHost(s: string): (r: bool)
    ensures r <==> ((|s| >= 2 && s[..2] == "//")
                    || (|s| >= 1 && IsAsciiLetter(s[0]) && exists k :: SchemeEndsAt(s, 1, k)))
  {
    SchemeThenAuthorityIff(s, 1);
    assert |s| >= 2 ==> (s[..2] == "//" <==> s[0] == '/' && s[1] == '/');
    (|s| >= 2 && s[0] == '/' && s[1] == '/')
    || (|s| >= 1 && IsAsciiLetter(s[0]) && SchemeThenAuthority(s, 1))
  }

  /** A path that starts with a single slash names no host. */
  lemma RootedPathHasNoHost(p: string)
    requires |p| >= 1 && p[0] == '/'
    requires |p| == 1 || p[1] != '/'
    ensures !HasHost(p)
  {
  }

  /** The shapes exercised by the project's tests. */
  lemma HostExamples()
    ensures HasHost("http://example.com/bah")
    ensures HasHost("//example.com/bah")
    ensures !HasHost("bah")
    ensures !HasHost("/bah")
  {
    var s := "http://example.com/bah";
    assert SchemeThenAuthority(s, 4);
    assert SchemeThenAuthority(s, 1);
    var b := "bah";
    assert !SchemeThenAuthority(b, 3);
    assert !SchemeThenAuthority(b, 1);
  }
}
