/** `ValidateDomain`: what a name must look like to be looked up. */
module Validate {
  import opened Wrappers
  import opened Text

  predicate IsLetter(c: char) { 'a' <= c <= 'z' || 'A' <= c <= 'Z' }

  predicate IsAlnum(c: char) { IsLetter(c) || IsDigit(c) }

  /** A label of the pattern: 1 to 63 letters, digits and inner hyphens. */
  predicate IsLabel(s: string) {
    && 1 <= |s| <= 63
    && IsAlnum(s[0]) && IsAlnum(s[|s| - 1])
    && forall c | c in s :: IsAlnum(c) || c == '-'
  }

  predicate IsTld(s: string) { 2 <= |s| <= 63 && forall c | c in s :: IsLetter(c) }

  /** The pattern `domainRe`: at least one label, then a top-level domain, separated by dots. */
  predicate MatchesDomain(s: string) {
    var parts := Split(s, '.');
    && |parts| >= 2
    && (forall i | 0 <= i < |parts| - 1 :: IsLabel(parts[i]))
    && IsTld(parts[|parts| - 1])
  }

  /** `lower` is `strings.ToLower`. */
  function ValidateDomain(lower: string -> string, raw: string): Result<string, ()> {
    var domain := TrimSuffix(TrimSpace(lower(raw)), ".");
    if domain == "" || |domain| > 253 then Err(())
    else if !MatchesDomain(domain) then Err(())
    else Ok(domain)
  }

  /** Labels and a top-level domain, 253 characters at most with their dots, are accepted, a last dot dropped. */
  lemma {:induction false} AcceptsDomain(lower: string -> string, raw: string, labels: seq<string>, tld: string)
    requires labels != [] && (forall i | 0 <= i < |labels| :: IsLabel(labels[i])) && IsTld(tld)
    requires var d := Join(labels + [tld], '.');
      |d| <= 253 && (TrimSpace(lower(raw)) == d || TrimSpace(lower(raw)) == d + ".")
    ensures ValidateDomain(lower, raw) == Ok(Join(labels + [tld], '.'))
  {
    var parts := labels + [tld];
    var d := Join(parts, '.');
    EndsInLetter(labels, tld);
    assert d[|d| - 1..] == [d[|d| - 1]] && !HasSuffix(d, ".");
    assert (d + ".")[..|d|] == d && (d + ".")[|d|..] == ".";
    forall i | 0 <= i < |parts| ensures '.' !in parts[i] {
    }
    SplitJoin(parts, '.');
  }

  lemma {:induction false} EndsInLetter(labels: seq<string>, tld: string)
    requires IsTld(tld)
    ensures var d := Join(labels + [tld], '.'); d != "" && IsLetter(d[|d| - 1])
  {
    if labels == [] {
      assert labels + [tld] == [tld];
      assert tld[|tld| - 1] in tld;
    } else {
      EndsInLetter(labels[1..], tld);
      assert labels + [tld] == [labels[0]] + (labels[1..] + [tld]);
      JoinCons(labels[0], labels[1..] + [tld], '.');
    }
  }

  predicate DomainChar(c: char) { IsAlnum(c) || c == '-' || c == '.' }

  predicate InSome(parts: seq<string>, c: char) { exists i | 0 <= i < |parts| :: c in parts[i] }

  lemma {:induction false} SplitCovers(s: string, sep: char, c: char)
    requires c in s
    ensures c == sep || InSome(Split(s, sep), c)
    decreases |s|
  {
    var i := IndexOf(s, sep);
    var parts := Split(s, sep);
    if i == |s| {
      assert parts[0] == s && c in parts[0];
    } else if c in s[..i] {
      assert parts[0] == s[..i] && c in parts[0];
    } else if c != sep {
      assert s == s[..i] + [sep] + s[i + 1..];
      var rest := Split(s[i + 1..], sep);
      SplitCovers(s[i + 1..], sep, c);
      var k :| 0 <= k < |rest| && c in rest[k];
      assert parts[k + 1] == rest[k];
    }
  }

  /** A validated domain is made of letters, digits, hyphens and dots, so it contains no colon. */
  lemma {:induction false} ValidatedAlphabet(lower: string -> string, raw: string)
    requires ValidateDomain(lower, raw).Ok?
    ensures var d := ValidateDomain(lower, raw).value;
      && d != "" && |d| <= 253 && (forall c | c in d :: DomainChar(c)) && ':' !in d
  {
    var d := ValidateDomain(lower, raw).value;
    var parts := Split(d, '.');
    forall c | c in d ensures DomainChar(c) {
      SplitCovers(d, '.', c);
    }
    assert !DomainChar(':');
  }
}
