/** String operations shared by the path and request models: Rust's `split`, `find` and `rfind`. */
module Text {

  /** `s.split(sep)`: the pieces between separators, never empty as a list. */
  function Split(s: string, sep: char): (parts: seq<string>)
    ensures |parts| >= 1
    ensures forall i :: 0 <= i < |parts| ==> sep !in parts[i]
  {
    if s == "" then [""]
    else
      var rest := Split(s[1..], sep);
      if s[0] == sep then [""] + rest else [[s[0]] + rest[0]] + rest[1..]
  }

  lemma {:induction false} SplitWhole(n: string, sep: char)
    requires sep !in n
    ensures Split(n, sep) == [n]
  {
    if n != "" {
      SplitWhole(n[1..], sep);
      assert [n[0]] + n[1..] == n;
    }
  }

  lemma {:induction false} SplitHead(n: string, sep: char, t: string)
    requires sep !in n
    ensures Split(n + [sep] + t, sep) == [n] + Split(t, sep)
  {
    var s := n + [sep] + t;
    if n == "" {
      assert s[1..] == t;
    } else {
      SplitHead(n[1..], sep, t);
      assert s[1..] == n[1..] + [sep] + t;
      assert [n[0]] + n[1..] == n;
    }
  }

  /** `s.rfind(c)`, with -1 for `None`. */
  function LastIndexOf(s: string, c: char): (r: int)
    ensures -1 <= r < |s|
    ensures r >= 0 ==> s[r] == c
    ensures forall k :: r < k < |s| ==> s[k] != c
  {
    if s == "" then -1
    else if s[|s| - 1] == c then |s| - 1
    else LastIndexOf(s[..|s| - 1], c)
  }

  /** `s.find(c)`, with `|s|` for `None`. */
  function FirstIndexOf(s: string, c: char): (r: nat)
    ensures r <= |s|
    ensures r < |s| ==> s[r] == c
    ensures forall k :: 0 <= k < r ==> s[k] != c
  {
    if s == "" || s[0] == c then 0 else 1 + FirstIndexOf(s[1..], c)
  }

  /** A character that does not occur in `t` is last seen just before it. */
  lemma {:induction false} LastIndexBefore(s: string, c: char, t: string)
    requires c !in t
    ensures LastIndexOf(s + [c] + t, c) == |s|
  {
    var u := s + [c] + t;
    assert u[|s|] == c;
    assert forall k :: |s| < k < |u| ==> u[k] == t[k - |s| - 1];
  }

  lemma {:induction false} FirstIndexAfter(n: string, c: char, t: string)
    requires c !in n
    ensures FirstIndexOf(n + [c] + t, c) == |n|
  {
    var u := n + [c] + t;
    assert u[|n|] == c;
    assert forall k :: 0 <= k < |n| ==> u[k] == n[k];
  }
}
