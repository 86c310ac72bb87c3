/** Text written into a buffer of limited size. */
module Texts {
  /** What fits of s. */
  function Clip(s: string, n: nat): (r: string)
    ensures |r| == if |s| <= n then |s| else n
    ensures r <= s
  {
    if |s| <= n then s else s[..n]
  }

  lemma ClipEmpty(n: nat)
    ensures Clip("", n) == ""
  {
  }

  lemma ClipAppend(a: string, b: string, n: nat)
    ensures Clip(a + b, n) == Clip(a, n) + Clip(b, n - |Clip(a, n)|)
  {
  }

  lemma ClipFull(a: string, b: string, n: nat)
    requires |Clip(a, n)| == n
    ensures Clip(a + b, n) == Clip(a, n)
  {
    ClipAppend(a, b, n);
  }
}
