/**
 * The string operations of Go's standard library that the core relies on:
 * strings.TrimPrefix, strings.TrimRight with the cutset "/",
 * strings.ReplaceAll of a tab by nothing, and byte-wise string comparison.
 */
module Strings {

  predicate HasPrefix(s: string, prefix: string) {
    |prefix| <= |s| && s[..|prefix|] == prefix
  }

  /** strings.TrimPrefix: drops `prefix` from the front of `s` when it is there. */
  function TrimPrefix(s: string, prefix: string): (r: string)
    ensures HasPrefix(s, prefix) ==> prefix + r == s
    ensures !HasPrefix(s, prefix) ==> r == s
  {
    if HasPrefix(s, prefix) then s[|prefix|..] else s
  }

  /** strings.TrimRight(s, "/"): drops every trailing slash. */
  function TrimRightSlash(s: string): (r: string)
    ensures |r| <= |s| && s[..|r|] == r
    ensures r == [] || r[|r| - 1] != '/'
    ensures forall i :: |r| <= i < |s| ==> s[i] == '/'
  {
    if |s| > 0 && s[|s| - 1] == '/' then TrimRightSlash(s[..|s| - 1]) else s
  }

  /** Trimming is idempotent. */
  lemma TrimRightSlashIdempotent(s: string)
    ensures TrimRightSlash(TrimRightSlash(s)) == TrimRightSlash(s)
  {
  }

  /** A string that does not end in a slash is left as it is. */
  lemma TrimRightSlashNoSlash(s: string)
    requires s == [] || s[|s| - 1] != '/'
    ensures TrimRightSlash(s) == s
  {
  }

  /** strings.ReplaceAll(s, "\t", ""): drops every tab and keeps every other character. */
  function RemoveTabs(s: string): (r: string)
    ensures '\t' !in r
    ensures |r| <= |s|
    ensures forall c :: c != '\t' ==> multiset(r)[c] == multiset(s)[c]
    ensures '\t' !in s ==> r == s
  {
    if s == [] then []
    else
      assert s == [s[0]] + s[1..];
      if s[0] == '\t' then RemoveTabs(s[1..])
      else [s[0]] + RemoveTabs(s[1..])
  }

  /** Removing tabs keeps the order of what is left: it distributes over concatenation. */
  lemma {:induction false} RemoveTabsConcat(a: string, b: string)
    ensures RemoveTabs(a + b) == RemoveTabs(a) + RemoveTabs(b)
  {
    if a == [] {
      assert a + b == b;
    } else {
      assert (a + b)[0] == a[0] && (a + b)[1..] == a[1..] + b;
      RemoveTabsConcat(a[1..], b);
    }
  }

  /**
   * Go's `<` on strings. Comparing code points lexicographically orders
   * strings exactly as comparing their UTF-8 bytes does.
   */
  predicate Less(a: string, b: string)
  {
    if a == [] then b != []
    else if b == [] then false
    else if a[0] != b[0] then a[0] < b[0]
    else Less(a[1..], b[1..])
  }

  lemma {:induction false} LessIrreflexive(a: string)
    ensures !Less(a, a)
  {
    if a != [] {
      LessIrreflexive(a[1..]);
    }
  }

  lemma {:induction false} LessAsymmetric(a: string, b: string)
    requires Less(a, b)
    ensures !Less(b, a)
  {
    if a != [] && b != [] && a[0] == b[0] {
      LessAsymmetric(a[1..], b[1..]);
    }
  }

  lemma {:induction false} LessTransitive(a: string, b: string, c: string)
    requires Less(a, b) && Less(b, c)
    ensures Less(a, c)
  {
    if a != [] && a[0] == b[0] && b[0] == c[0] {
      LessTransitive(a[1..], b[1..], c[1..]);
    }
  }

  lemma {:induction false} LessTotal(a: string, b: string)
    requires a != b
    ensures Less(a, b) || Less(b, a)
  {
    if a != [] && b != [] && a[0] == b[0] {
      assert a == [a[0]] + a[1..] && b == [b[0]] + b[1..];
      LessTotal(a[1..], b[1..]);
    }
  }
}
