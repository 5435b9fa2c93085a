/**
  The subdomain list is cached as a Go slice and handed to callers that append to it.  A slice is a
  window on a shared array; appending writes into the array when there is room behind the window.
*/
module Slices {

  datatype Slice = Slice(back: array<string>, len: nat)

  ghost predicate Valid(s: Slice) reads s.back { s.len <= s.back.Length }

  ghost function Contents(s: Slice): seq<string>
    requires Valid(s)
    reads s.back
  {
    s.back[..s.len]
  }

  /** Go's `append` of one element: in place if the capacity allows, otherwise in a larger copy. */
  method Append(s: Slice, x: string) returns (t: Slice)
    requires Valid(s)
    modifies if s.len < s.back.Length then {s.back} else {}
    ensures Valid(t) && Contents(t) == old(Contents(s)) + [x]
    ensures s.len == s.back.Length ==> fresh(t.back)
    ensures s.len < s.back.Length ==> t.back == s.back && s.back[..s.len] == old(s.back[..s.len])
  {
    if s.len < s.back.Length {
      s.back[s.len] := x;
      return Slice(s.back, s.len + 1);
    }
    var bigger := new string[2 * s.len + 1](_ => "");
    for i := 0 to s.len
      invariant bigger[..i] == s.back[..i]
    {
      bigger[i] := s.back[i];
    }
    bigger[s.len] := x;
    assert bigger[..s.len + 1] == old(Contents(s)) + [x];
    t := Slice(bigger, s.len + 1);
  }

  /** The list PassiveSubdomains caches: made with the capacity it needs and filled, so len = cap. */
  method Filled(names: seq<string>) returns (s: Slice)
    ensures fresh(s.back) && Valid(s) && Contents(s) == names && s.len == s.back.Length
  {
    var back := new string[|names|](_ => "");
    s := Slice(back, 0);
    for i := 0 to |names|
      invariant s == Slice(back, i) && back[..i] == names[..i]
    {
      s := Append(s, names[i]);
    }
  }

  function WithDomain(words: seq<string>, domain: string): seq<string> {
    if words == [] then [] else [words[0] + "." + domain] + WithDomain(words[1..], domain)
  }

  /** Appending names to a full slice leaves its array alone: the frame allows no other change. */
  method ExtendFull(cached: Slice, words: seq<string>, domain: string) returns (candidates: Slice)
    requires Valid(cached) && cached.len == cached.back.Length
    ensures Valid(candidates) && Contents(candidates) == Contents(cached) + WithDomain(words, domain)
    ensures words != [] ==> fresh(candidates.back)
  {
    candidates := cached;
    ghost var before := Contents(cached);
    for i := 0 to |words|
      invariant Valid(candidates)
      invariant if i == 0 then candidates == cached else fresh(candidates.back)
      invariant Contents(candidates) + WithDomain(words[i..], domain) == before + WithDomain(words, domain)
    {
      candidates := Append(candidates, words[i] + "." + domain);
    }
  }
}
