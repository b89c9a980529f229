/** Small helpers shared by every component: an optional value and the
    string predicates the C++ code uses through std::string members. */
module Common {

  datatype Option<+T> = None | Some(value: T)

  /** `s.find(prefix) == 0` in C++: `prefix` occurs at position 0 of `s`. */
  predicate StartsWith(s: string, prefix: string)
  {
    |prefix| <= |s| && s[..|prefix|] == prefix
  }

  /** `strstr(s, part) != nullptr`: `part` occurs somewhere in `s`. */
  predicate Contains(s: string, part: string)
  {
    exists i :: 0 <= i <= |s| - |part| && OccursAt(s, part, i)
  }

  predicate OccursAt(s: string, part: string, i: int)
  {
    0 <= i <= |s| - |part| && s[i..i + |part|] == part
  }

  /** Index of the first occurrence of `c` in `s`, or `|s|` when it does not
      occur (std::string::find with npos mapped to the length). */
  function IndexOf(s: string, c: char): (r: nat)
    ensures r <= |s|
    ensures r < |s| ==> s[r] == c
    ensures forall i :: 0 <= i < r ==> s[i] != c
  {
    if |s| == 0 then 0
    else if s[0] == c then 0
    else 1 + IndexOf(s[1..], c)
  }

  /** `s.substr(0, s.find(c))`: the part of `s` before the first `c`. */
  function UpTo(s: string, c: char): (r: string)
    ensures c !in r
    ensures StartsWith(s, r)
    ensures |r| < |s| ==> s[|r|] == c
  {
    s[..IndexOf(s, c)]
  }

  /** ASCII `tolower`, the only case mapping the C runtime does in the "C" locale. */
  function ToLower(c: char): (r: char)
    ensures 'A' <= c <= 'Z' ==> r as int == c as int + 32
    ensures !('A' <= c <= 'Z') ==> r == c
  {
    if 'A' <= c <= 'Z' then (c as int + 32) as char else c
  }

  /** `std::transform(s.begin(), s.end(), s.begin(), tolower)`. */
  function Lowered(s: string): (r: string)
    ensures |r| == |s|
    ensures forall i :: 0 <= i < |s| ==> r[i] == ToLower(s[i])
  {
    if |s| == 0 then [] else [ToLower(s[0])] + Lowered(s[1..])
  }

  /** `emplace`: an existing key keeps its value. */
  function Emplace<K, V>(m: map<K, V>, k: K, v: V): (m': map<K, V>)
    ensures k in m ==> m' == m
    ensures k !in m ==> m' == m[k := v]
  {
    if k in m then m else m[k := v]
  }

  /** Joins `parts` with `sep` between consecutive elements. */
  function Join(parts: seq<string>, sep: string): string
  {
    if |parts| == 0 then ""
    else if |parts| == 1 then parts[0]
    else parts[0] + sep + Join(parts[1..], sep)
  }

  /** Appending one more part adds the separator and the part at the end. */
  lemma {:induction false} JoinSnoc(parts: seq<string>, last: string, sep: string)
    requires |parts| > 0
    ensures Join(parts + [last], sep) == Join(parts, sep) + sep + last
    decreases |parts|
  {
    if |parts| == 1 {
      assert (parts + [last])[1..] == [last];
    } else {
      assert (parts + [last])[1..] == parts[1..] + [last];
      JoinSnoc(parts[1..], last, sep);
    }
  }

  /** A subset has no more elements than its superset. */
  lemma SubsetCard<T>(a: set<T>, b: set<T>)
    requires a <= b
    ensures |a| <= |b|
  {
    assert b == a + (b - a);
  }

  /** The part before the first `c` of `a + [c] + x` is `a` when `c` does
      not occur in `a`. */
  lemma UpToPrefix(a: string, c: char, x: string)
    requires c !in a
    ensures IndexOf(a + [c] + x, c) == |a|
    ensures UpTo(a + [c] + x, c) == a
  {
    var s := a + [c] + x;
    var r := IndexOf(s, c);
    assert s[|a|] == c;
    assert forall i :: 0 <= i < |a| ==> s[i] == a[i];
  }
}
