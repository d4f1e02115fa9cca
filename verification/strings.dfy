/** The few `String.prototype` operations the resolver relies on, with their
    JavaScript meaning: `includes`, `startsWith`, `indexOf`, and `replace` with a
    string pattern, which rewrites only the FIRST occurrence. */
module Strings {
  import opened Wrappers

  predicate IsDigit(c: char) {
    '0' <= c <= '9'
  }

  predicate AllDigits(s: string) {
    forall i :: 0 <= i < |s| ==> IsDigit(s[i])
  }

  /** JavaScript truthiness of an optional string: present and not empty. */
  predicate Present(o: Option<string>) {
    o.Some? && o.value != ""
  }

  /** `t` occurs in `s` starting at index `i`. */
  predicate OccursAt(s: string, t: string, i: nat) {
    i + |t| <= |s| && s[i..i + |t|] == t
  }

  predicate StartsWith(s: string, t: string) {
    OccursAt(s, t, 0)
  }

  /** A prefix made of two parts is the first part followed by the second. */
  lemma StartsWithConcat(s: string, a: string, b: string)
    ensures StartsWith(s, a + b) <==> StartsWith(s, a) && StartsWith(s[|a|..], b)
  {
    if StartsWith(s, a) && StartsWith(s[|a|..], b) {
      assert s[..|a + b|] == s[..|a|] + s[|a|..][..|b|];
    }
    if StartsWith(s, a + b) {
      assert s[..|a|] == (a + b)[..|a|];
      assert s[|a|..][..|b|] == (a + b)[|a|..];
    }
  }

  /** The leftmost occurrence of `t` at or after `from` (`indexOf(t, from)`). */
  function IndexOfFrom(s: string, t: string, from: nat): (r: Option<nat>)
    decreases |s| - from
    ensures r.Some? ==> from <= r.value && OccursAt(s, t, r.value)
    ensures r.Some? ==> forall j: nat :: from <= j < r.value ==> !OccursAt(s, t, j)
    ensures r.None? ==> forall j: nat :: from <= j ==> !OccursAt(s, t, j)
  {
    if from + |t| > |s| then None
    else if s[from..from + |t|] == t then Some(from)
    else IndexOfFrom(s, t, from + 1)
  }

  /** `s.includes(t)`. */
  function Contains(s: string, t: string): (b: bool)
    ensures b <==> exists i: nat :: OccursAt(s, t, i)
  {
    IndexOfFrom(s, t, 0).Some?
  }

  /** `s.replace(t, rep)` for a string pattern `t` and a replacement without `$`
      sequences: only the leftmost occurrence is rewritten. */
  function ReplaceFirst(s: string, t: string, rep: string): (r: string)
    ensures !Contains(s, t) ==> r == s
    ensures Contains(s, t) ==> |r| == |s| - |t| + |rep|
    ensures Contains(s, t) ==>
      exists i: nat :: OccursAt(s, t, i) && (forall j: nat :: j < i ==> !OccursAt(s, t, j))
                       && r == s[..i] + rep + s[i + |t|..]
  {
    match IndexOfFrom(s, t, 0)
    case None => s
    case Some(i) =>
      assert OccursAt(s, t, i) && forall j: nat :: j < i ==> !OccursAt(s, t, j);
      s[..i] + rep + s[i + |t|..]
  }

  /** The leftmost occurrence is the one `ReplaceFirst` rewrites. */
  lemma ReplaceFirstAt(s: string, t: string, rep: string, i: nat)
    requires OccursAt(s, t, i)
    requires forall j: nat :: j < i ==> !OccursAt(s, t, j)
    ensures ReplaceFirst(s, t, rep) == s[..i] + rep + s[i + |t|..]
  {
    var k := IndexOfFrom(s, t, 0);
    assert k.Some?;
    assert k.value == i;
  }

  /** A string without an occurrence of the first pattern of a chain of rewrites
      is untouched by that rewrite; the lemma lets the two rewrite chains of the
      resolver be reasoned about one step at a time. */
  lemma ReplaceFirstAbsent(s: string, t: string, rep: string)
    requires !Contains(s, t)
    ensures ReplaceFirst(s, t, rep) == s
  {
  }

  /** An occurrence inside a longer occurrence: if `u[d..d+|t|] == t` and `u`
      occurs at `i`, then `t` occurs at `i + d`. */
  lemma OccursWithin(s: string, u: string, t: string, i: nat, d: nat)
    requires OccursAt(s, u, i)
    requires OccursAt(u, t, d)
    ensures OccursAt(s, t, i + d)
  {
    forall x | 0 <= x < |t|
      ensures s[i + d + x] == t[x]
    {
      assert s[i..i + |u|][d + x] == u[d + x];
      assert u[d..d + |t|][x] == t[x];
    }
  }

  /** Containment of a longer string carries over to its substrings. */
  lemma ContainsWithin(s: string, u: string, t: string, d: nat)
    requires Contains(s, u)
    requires OccursAt(u, t, d)
    ensures Contains(s, t)
  {
    var i: nat :| OccursAt(s, u, i);
    OccursWithin(s, u, t, i, d);
  }
}
