/**
 * The few operations of Python's `str` that the program relies on, over `seq<char>`:
 * `find`, `in`, `startswith`, `endswith`, `strip()`, `lower()`, `split(sep)[0]` and slicing `[:n]`.
 */
module PyStr {

  /** `p` occurs in `s` starting at index `i`. */
  ghost predicate OccursAt(s: string, p: string, i: int) {
    0 <= i && i + |p| <= |s| && s[i..i + |p|] == p
  }

  /** `k` is the first index at or after `from` where `p` occurs in `s`. */
  ghost predicate FirstAt(s: string, p: string, from: int, k: int) {
    from <= k && OccursAt(s, p, k) && forall i :: from <= i < k ==> !OccursAt(s, p, i)
  }

  /** `p` occurs nowhere in `s` at or after `from`. */
  ghost predicate NowhereFrom(s: string, p: string, from: int) {
    forall i :: from <= i ==> !OccursAt(s, p, i)
  }

  /** `s.find(p, from)`: the first index at or after `from` where `p` occurs, or -1. */
  function Find(s: string, p: string, from: nat): (r: int)
    ensures r == -1 ==> NowhereFrom(s, p, from)
    ensures r != -1 ==> FirstAt(s, p, from, r)
    decreases |s| - from
  {
    if from + |p| > |s| then -1
    else if s[from..from + |p|] == p then from
    else Find(s, p, from + 1)
  }

  /** `Find` gives the only first occurrence: any other claimed first occurrence is the same index. */
  lemma FindIsTheFirst(s: string, p: string, from: nat, k: int)
    requires FirstAt(s, p, from, k)
    ensures Find(s, p, from) == k
  {
  }

  /** `p in s`. */
  predicate Contains(s: string, p: string) {
    Find(s, p, 0) != -1
  }

  lemma ContainsMeansOccurs(s: string, p: string)
    ensures Contains(s, p) <==> exists i :: OccursAt(s, p, i)
  {
    if Contains(s, p) {
      assert OccursAt(s, p, Find(s, p, 0));
    }
  }

  /** `s.startswith(p)`. */
  predicate StartsWith(s: string, p: string) {
    p <= s
  }

  /** `s.endswith(p)`. */
  predicate EndsWith(s: string, p: string) {
    |p| <= |s| && s[|s| - |p|..] == p
  }

  /** The characters for which Python's `str.isspace()` is true. */
  predicate IsSpace(c: char) {
    ('\t' <= c <= '\r') || ('\U{1c}' <= c <= ' ') || c == '\U{85}' || c == '\U{a0}'
    || c == '\U{1680}' || ('\U{2000}' <= c <= '\U{200a}') || c == '\U{2028}' || c == '\U{2029}'
    || c == '\U{202f}' || c == '\U{205f}' || c == '\U{3000}'
  }

  /** `s.lstrip()`: drops the leading white space and nothing else. */
  function TrimStart(s: string): (r: string)
    ensures |r| <= |s| && r == s[|s| - |r|..]
    ensures forall i :: 0 <= i < |s| - |r| ==> IsSpace(s[i])
    ensures r != [] ==> !IsSpace(r[0])
  {
    if s != [] && IsSpace(s[0]) then TrimStart(s[1..]) else s
  }

  /** `s.rstrip()`: drops the trailing white space and nothing else. */
  function TrimEnd(s: string): (r: string)
    ensures |r| <= |s| && r == s[..|r|]
    ensures forall i :: |r| <= i < |s| ==> IsSpace(s[i])
    ensures r != [] ==> !IsSpace(r[|r| - 1])
  {
    if s != [] && IsSpace(s[|s| - 1]) then TrimEnd(s[..|s| - 1]) else s
  }

  /** `r` is the slice `s[a..a + |r|]`. */
  ghost predicate SliceAt(s: string, r: string, a: int) {
    0 <= a && a + |r| <= |s| && r == s[a..a + |r|]
  }

  lemma SliceKeepsAbsence(s: string, r: string, a: int, c: char)
    requires SliceAt(s, r, a) && c !in s
    ensures c !in r
  {
  }

  /** `r` is the slice `s[a..a + |r|]` and everything of `s` outside that slice is white space. */
  ghost predicate SliceBetweenSpaces(s: string, r: string, a: int) {
    SliceAt(s, r, a)
    && (forall i :: 0 <= i < a ==> IsSpace(s[i]))
    && (forall i :: a + |r| <= i < |s| ==> IsSpace(s[i]))
  }

  /** `s.strip()`: the slice of `s` left once the white space at both ends is gone. */
  function Strip(s: string): (r: string)
    ensures exists a :: SliceBetweenSpaces(s, r, a)
    ensures r != [] ==> !IsSpace(r[0]) && !IsSpace(r[|r| - 1])
  {
    var t := TrimStart(s);
    var r := TrimEnd(t);
    assert SliceBetweenSpaces(s, r, |s| - |t|);
    r
  }

  lemma StripKeepsUnpadded(s: string)
    requires s != [] && !IsSpace(s[0]) && !IsSpace(s[|s| - 1])
    ensures Strip(s) == s
  {
  }

  /** One character of `str.lower()`: the ASCII capitals A to Z become small letters. */
  function LowerChar(c: char): (d: char)
    ensures 'A' <= c <= 'Z' ==> d as int == c as int + 32
    ensures !('A' <= c <= 'Z') ==> d == c
  {
    if 'A' <= c <= 'Z' then (c as int + 32) as char else c
  }

  /** `s.lower()`, for the ASCII letters. */
  function Lower(s: string): (r: string)
    ensures |r| == |s| && forall i :: 0 <= i < |s| ==> r[i] == LowerChar(s[i])
  {
    seq(|s|, i requires 0 <= i < |s| => LowerChar(s[i]))
  }

  /** `s[:n]`. */
  function Prefix(s: string, n: nat): (r: string)
    ensures r <= s
    ensures |r| == if |s| <= n then |s| else n
  {
    if |s| <= n then s else s[..n]
  }

  /** `s.split(sep)[0]`: everything before the first `sep`, or the whole of `s`. */
  function BeforeFirst(s: string, sep: char): (r: string)
    ensures r <= s && sep !in r
    ensures |r| < |s| ==> s[|r|] == sep
  {
    if s == [] then []
    else if s[0] == sep then []
    else [s[0]] + BeforeFirst(s[1..], sep)
  }
}
