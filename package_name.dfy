/**
 * Which extracted keys are sent for resolution: the package-name grammar
 * `^(@[a-z0-9-~][a-z0-9-._~]*\/)?[a-z0-9-~][a-z0-9-._~]*$` (in both
 * character classes the `-` after `0-9` is a literal dash) and the fixed
 * list of manifest keys that are not dependencies.
 */
module PackageName {
  import opened Wrappers

  /** `[a-z0-9-~]`: the first character of the scope and of the name. */
  predicate IsHeadChar(c: char) {
    ('a' <= c <= 'z') || ('0' <= c <= '9') || c == '-' || c == '~'
  }

  /** `[a-z0-9-._~]`: every later character. */
  predicate IsTailChar(c: char) {
    IsHeadChar(c) || c == '.' || c == '_'
  }

  /** `[a-z0-9-~][a-z0-9-._~]*`, the shape of both the scope and the bare name. */
  predicate IsSegment(s: string) {
    |s| > 0 && IsHeadChar(s[0]) && forall i :: 1 <= i < |s| ==> IsTailChar(s[i])
  }

  /** Index of the first occurrence of `c` in `s`. */
  function IndexOf(s: string, c: char): (r: Option<nat>)
    ensures r.Some? ==> r.value < |s| && s[r.value] == c && forall j :: 0 <= j < r.value ==> s[j] != c
    ensures r.None? ==> forall j :: 0 <= j < |s| ==> s[j] != c
  {
    if s == [] then None
    else if s[0] == c then Some(0)
    else match IndexOf(s[1..], c)
      case None => None
      case Some(k) => Some(k + 1)
  }

  /**
   * `isValidPackageName`. A leading `@` can only be the scope's (neither
   * character class holds it), and the scope ends at the first `/` (neither
   * class holds that either), so the test splits the name there.
   */
  predicate IsValidPackageName(name: string) {
    if |name| > 0 && name[0] == '@' then
      match IndexOf(name, '/')
      case None => false
      case Some(k) => IsSegment(name[1..k]) && IsSegment(name[k + 1..])
    else
      IsSegment(name)
  }

  /** The grammar of the regular expression, read as a language. */
  ghost predicate InNameLanguage(name: string) {
    || IsSegment(name)
    || exists scope, base :: IsSegment(scope) && IsSegment(base) && name == ['@'] + scope + ['/'] + base
  }

  lemma SegmentHasNoAtOrSlash(s: string)
    requires IsSegment(s)
    ensures forall i :: 0 <= i < |s| ==> s[i] != '@' && s[i] != '/'
  {
  }

  /** `isValidPackageName` accepts exactly the language of its regular expression. */
  lemma {:induction false} ValidNameIffInLanguage(name: string)
    ensures IsValidPackageName(name) <==> InNameLanguage(name)
  {
    if IsValidPackageName(name) && |name| > 0 && name[0] == '@' {
      var k := IndexOf(name, '/').value;
      assert name == ['@'] + name[1..k] + ['/'] + name[k + 1..];
    }
    if InNameLanguage(name) && !IsSegment(name) {
      var scope, base :| IsSegment(scope) && IsSegment(base) && name == ['@'] + scope + ['/'] + base;
      var k := |scope| + 1;
      SegmentHasNoAtOrSlash(scope);
      forall j | 0 <= j < k ensures name[j] != '/' {
        if j > 0 {
          assert name[j] == scope[j - 1];
        }
      }
      assert name[k] == '/';
      assert IndexOf(name, '/') == Some(k);
      assert name[1..k] == scope;
      assert name[k + 1..] == base;
    }
  }

  /** A name holding an upper-case ASCII letter anywhere is rejected. */
  lemma UppercaseRejected(name: string, i: nat)
    requires i < |name| && 'A' <= name[i] <= 'Z'
    ensures !IsValidPackageName(name)
  {
    ValidNameIffInLanguage(name);
  }

  /** A bare name, or the name after a scope, may not start with `.` or `_`. */
  lemma LeadingDotOrUnderscoreRejected(scope: string, base: string)
    requires base != [] && (base[0] == '.' || base[0] == '_')
    ensures !IsValidPackageName(base)
    ensures !IsValidPackageName(['@'] + scope + ['/'] + base)
  {
    var name := ['@'] + scope + ['/'] + base;
    var slash := |scope| + 1;
    assert name[slash] == '/';
    var k := IndexOf(name, '/').value;
    if k == slash {
      assert name[k + 1..] == base;
    } else {
      assert name[k + 1..][slash - k - 1] == '/';
    }
  }

  /** An empty scope, `@/...`, is rejected. */
  lemma EmptyScopeRejected(base: string)
    ensures !IsValidPackageName(['@', '/'] + base)
  {
    var name := ['@', '/'] + base;
    assert IndexOf(name, '/') == Some(1);
  }

  /** The manifest keys that look like dependency entries but are not. */
  const SkipList: seq<string> := [
    "name", "version", "description", "main", "scripts", "keywords", "author",
    "license", "bugs", "homepage", "repository", "engines", "dependencies",
    "devDependencies", "peerDependencies", "optionalDependencies"
  ]

  /** `shouldSkipPackage`: membership in the fixed skip list. */
  predicate ShouldSkipPackage(name: string) {
    name in SkipList
  }

  /**
   * The skip list has sixteen keys, and the three camel-case ones can never
   * reach the skip test: the name grammar already rejects them.
   */
  lemma SkipListKeys()
    ensures |SkipList| == 16
    ensures ShouldSkipPackage("devDependencies") && !IsValidPackageName("devDependencies")
    ensures ShouldSkipPackage("peerDependencies") && !IsValidPackageName("peerDependencies")
    ensures ShouldSkipPackage("optionalDependencies") && !IsValidPackageName("optionalDependencies")
  {
    assert SkipList[13] == "devDependencies";
    assert SkipList[14] == "peerDependencies";
    assert SkipList[15] == "optionalDependencies";
    UppercaseRejected("devDependencies", 3);
    UppercaseRejected("peerDependencies", 4);
    UppercaseRejected("optionalDependencies", 8);
  }
}
