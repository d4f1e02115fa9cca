/** The regular expressions of the resolver, as data. Every pattern it uses is a
    concatenation of literals, single characters of a class, and greedy runs of a
    class, some of them inside capturing groups. `Find` mirrors
    `String.prototype.match` with a non-global regular expression: it returns the
    match that starts leftmost, with its groups. */
module Patterns {
  import opened Wrappers
  import opened Strings

  datatype CharClass =
    | Digit               // \d
    | NonDigit            // [^\d]
    | Space               // \s
    | AnyOf(chars: string) // a bracketed set such as ["':=]

  /** ECMAScript's `\s`: the WhiteSpace and LineTerminator code points. */
  predicate IsSpace(c: char) {
    || c == ' ' || c == '\t' || c == '\n' || c == '\U{B}' || c == '\U{C}' || c == '\r'
    || c == '\U{A0}' || c == '\U{1680}' || ('\U{2000}' <= c <= '\U{200A}')
    || c == '\U{2028}' || c == '\U{2029}' || c == '\U{202F}' || c == '\U{205F}'
    || c == '\U{3000}' || c == '\U{FEFF}'
  }

  predicate InClass(c: char, cls: CharClass) {
    match cls
    case Digit => IsDigit(c)
    case NonDigit => !IsDigit(c)
    case Space => IsSpace(c)
    case AnyOf(cs) => c in cs
  }

  datatype Atom =
    | Lit(text: string)                      // these characters, in order
    | One(cls: CharClass)                    // exactly one character of the class
    | Many(cls: CharClass, atLeastOne: bool) // a greedy run: `+` when atLeastOne, else `*`

  /** One element of a pattern; `group` puts a capturing group around the atom. */
  datatype Term = Term(atom: Atom, group: bool)

  type Pattern = seq<Term>

  /** A match starting at a known index: where it ends and what its groups hold. */
  datatype Match = Match(end: nat, groups: seq<string>)

  /** A match found by a search: where it starts and what its groups hold. */
  datatype Found = Found(start: nat, groups: seq<string>)

  function GroupCount(p: Pattern): nat {
    if p == [] then 0 else (if p[0].group then 1 else 0) + GroupCount(p[1..])
  }

  /** The end of the longest run of class characters that starts at `i`. */
  function RunEnd(s: string, i: nat, cls: CharClass): (k: nat)
    requires i <= |s|
    decreases |s| - i
    ensures i <= k <= |s|
    ensures forall x :: i <= x < k ==> InClass(s[x], cls)
    ensures k < |s| ==> !InClass(s[k], cls)
  {
    if i < |s| && InClass(s[i], cls) then RunEnd(s, i + 1, cls) else i
  }

  /** Where the atom ends when it is matched at `i`; runs are taken whole. */
  function AtomEnd(s: string, i: nat, a: Atom): (k: Option<nat>)
    requires i <= |s|
    ensures k.Some? ==> i <= k.value <= |s|
  {
    match a
    case Lit(t) => if OccursAt(s, t, i) then Some(i + |t|) else None
    case One(cls) => if i < |s| && InClass(s[i], cls) then Some(i + 1) else None
    case Many(cls, atLeastOne) =>
      var k := RunEnd(s, i, cls);
      if atLeastOne && k == i then None else Some(k)
  }

  /** Matches the pattern at index `i`, taking every run whole. */
  function MatchAt(s: string, i: nat, p: Pattern): (r: Option<Match>)
    requires i <= |s|
    decreases |p|
    ensures r.Some? ==> i <= r.value.end <= |s| && |r.value.groups| == GroupCount(p)
  {
    if p == [] then Some(Match(i, []))
    else
      match AtomEnd(s, i, p[0].atom)
      case None => None
      case Some(k) =>
        match MatchAt(s, k, p[1..])
        case None => None
        case Some(m) => Some(Match(m.end, (if p[0].group then [s[i..k]] else []) + m.groups))
  }

  /** The leftmost start at or after `from` where the pattern matches. */
  function FindFrom(s: string, p: Pattern, from: nat): (r: Option<Found>)
    requires from <= |s|
    decreases |s| - from
    ensures r.Some? ==> from <= r.value.start <= |s| && MatchAt(s, r.value.start, p).Some?
    ensures r.Some? ==> r.value.groups == MatchAt(s, r.value.start, p).value.groups
    ensures r.Some? ==> forall q: nat :: from <= q < r.value.start ==> MatchAt(s, q, p).None?
    ensures r.None? ==> forall q: nat :: from <= q <= |s| ==> MatchAt(s, q, p).None?
  {
    match MatchAt(s, from, p)
    case Some(m) => Some(Found(from, m.groups))
    case None => if from == |s| then None else FindFrom(s, p, from + 1)
  }

  /** `s.match(p)` for a non-global regular expression. */
  function Find(s: string, p: Pattern): Option<Found> {
    FindFrom(s, p, 0)
  }

  /** `const m = s.match(p); m && m[1]`: the first group of the leftmost match,
      when it is there and is not empty. */
  function FirstGroup(s: string, p: Pattern): (r: Option<string>)
    ensures r.Some? ==> r.value != ""
    ensures r.Some? ==> Find(s, p).Some?
  {
    match Find(s, p)
    case Some(f) => if |f.groups| > 0 && f.groups[0] != "" then Some(f.groups[0]) else None
    case None => None
  }
}
