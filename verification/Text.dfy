/** Python string primitives shared by the scanners: substring search, prefix and suffix tests. */
module Text {

  datatype Option<+T> = None | Some(value: T)

  /** `t` occurs in `s` at index `i`. */
  predicate At(s: string, i: int, t: string) {
    0 <= i && i + |t| <= |s| && s[i..i + |t|] == t
  }

  /** `s.find(t)` from index `i` on: the least occurrence. */
  function FindFrom(s: string, t: string, i: nat): (r: Option<nat>)
    requires i <= |s|
    ensures r.Some? ==> At(s, r.value, t)
    decreases |s| - i
  {
    if At(s, i, t) then Some(i)
    else if i == |s| then None
    else FindFrom(s, t, i + 1)
  }

  function Find(s: string, t: string): (r: Option<nat>)
    ensures r.Some? ==> At(s, r.value, t)
  {
    FindFrom(s, t, 0)
  }

  predicate Contains(s: string, t: string) {
    Find(s, t).Some?
  }

  lemma FindFromLeast(s: string, t: string, i: nat, j: int)
    requires i <= |s| && i <= j
    requires match FindFrom(s, t, i) case Some(k) => j < k case None => true
    ensures !At(s, j, t)
    decreases |s| - i
  {
    if i < j && i < |s| { FindFromLeast(s, t, i + 1, j); }
  }

  /** Nothing occurs before the index found, and nothing at all when none is found. */
  lemma FindLeast(s: string, t: string)
    ensures match Find(s, t)
            case Some(k) => forall j | 0 <= j < k :: !At(s, j, t)
            case None => forall j :: !At(s, j, t)
  {
    match Find(s, t)
    case Some(k) => forall j | 0 <= j < k ensures !At(s, j, t) { FindFromLeast(s, t, 0, j); }
    case None => forall j ensures !At(s, j, t) { if 0 <= j { FindFromLeast(s, t, 0, j); } }
  }

  lemma FindIs(s: string, t: string, k: nat)
    requires At(s, k, t) && forall j | 0 <= j < k :: !At(s, j, t)
    ensures Find(s, t) == Some(k)
  {
    FindLeast(s, t);
  }

  lemma ContainsAt(s: string, t: string, i: int)
    requires At(s, i, t)
    ensures Contains(s, t)
  {
    FindLeast(s, t);
  }

  predicate StartsWith(s: string, t: string) {
    At(s, 0, t)
  }

  predicate EndsWith(s: string, t: string) {
    At(s, |s| - |t|, t)
  }

  /** `s.rfind(c)` for a single character; `None` stands for -1. */
  function LastIndexOf(s: string, c: char): (r: Option<nat>)
    ensures r.Some? ==> r.value < |s| && s[r.value] == c && forall j | r.value < j < |s| :: s[j] != c
    ensures r.None? ==> c !in s
  {
    if s == "" then None
    else if s[|s| - 1] == c then Some(|s| - 1)
    else LastIndexOf(s[..|s| - 1], c)
  }

  function Concat(parts: seq<string>): string {
    if parts == [] then "" else parts[0] + Concat(parts[1..])
  }

  // Facts about concatenation, kept apart from the proofs that use them.

  lemma Assoc<T>(a: seq<T>, b: seq<T>, c: seq<T>)
    ensures (a + b) + c == a + (b + c)
  {}

  lemma CancelHead<T>(head: seq<T>, a: seq<T>, b: seq<T>)
    ensures head + a == head + b <==> a == b
  {
    if head + a == head + b { assert a == (head + a)[|head|..] == b; }
  }

  lemma SplitAround(s: string, i: int, t: string)
    requires At(s, i, t)
    ensures s == s[..i] + t + s[i + |t|..]
  {}

  lemma Single<T>(s: seq<T>, i: nat)
    requires i < |s|
    ensures s[i..i + 1] == [s[i]]
  {}

  /** The first element of a concatenation, and the rest. */
  lemma Uncons<T>(a: seq<T>, b: seq<T>)
    requires a != []
    ensures (a + b)[0] == a[0] && (a + b)[1..] == a[1..] + b
  {}

  /** Moving the first element of `b` to the end of `a`. */
  lemma Shift<T>(a: seq<T>, b: seq<T>)
    requires b != []
    ensures (a + [b[0]]) + b[1..] == a + b
  {}

  /** A window of `a + b` that crosses the seam. */
  lemma Seam<T>(a: seq<T>, b: seq<T>, j: nat, n: nat)
    requires j <= |a| <= j + n <= |a| + |b|
    ensures (a + b)[j..j + n] == a[j..] + b[..j + n - |a|]
    ensures (a + b)[j + n..] == b[j + n - |a|..]
    ensures (a + b)[..j] == a[..j]
  {}
}
