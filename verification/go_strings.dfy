/** Go's `strings.Trim` with a one-character cut set, as uploadPart applies it to the ETag header. */
module GoStrings {

  /** `n` copies of `c`. */
  function Repeat(c: char, n: nat): (s: string)
    ensures |s| == n
    ensures forall k | 0 <= k < n :: s[k] == c
  {
    if n == 0 then "" else [c] + Repeat(c, n - 1)
  }

  /** The length of the run of `c` that starts `s`. */
  function LeadingRun(s: string, c: char): (n: nat)
    ensures n <= |s|
    ensures forall k | 0 <= k < n :: s[k] == c
    ensures n < |s| ==> s[n] != c
  {
    if |s| > 0 && s[0] == c then 1 + LeadingRun(s[1..], c) else 0
  }

  /** The length of the run of `c` that ends `s`. */
  function TrailingRun(s: string, c: char): (n: nat)
    ensures n <= |s|
    ensures forall k | |s| - n <= k < |s| :: s[k] == c
    ensures n < |s| ==> s[|s| - n - 1] != c
  {
    if |s| > 0 && s[|s| - 1] == c then 1 + TrailingRun(s[..|s| - 1], c) else 0
  }

  /** `strings.Trim(s, string(c))`: drop every leading and every trailing `c`. */
  function Trim(s: string, c: char): (r: string)
    ensures LeadingRun(s, c) + |r| <= |s|
    ensures r == "" || (r[0] != c && r[|r| - 1] != c)
    ensures s == Repeat(c, LeadingRun(s, c)) + r + Repeat(c, |s| - LeadingRun(s, c) - |r|)
  {
    var lead := LeadingRun(s, c);
    var rest := s[lead..];
    var trail := TrailingRun(rest, c);
    var r := rest[..|rest| - trail];
    CutInThree(s, lead, |s| - trail, c);
    r
  }

  /** `s` cut at `i` and `j`, where everything outside `[i, j)` is `c`, is a run, the middle, and a run. */
  lemma CutInThree(s: string, i: nat, j: nat, c: char)
    requires i <= j <= |s|
    requires forall k | 0 <= k < i :: s[k] == c
    requires forall k | j <= k < |s| :: s[k] == c
    ensures s == Repeat(c, i) + s[i..j] + Repeat(c, |s| - j)
  {
    AllOfRun(s[..i], c);
    AllOfRun(s[j..], c);
    assert s == s[..i] + s[i..j] + s[j..];
  }

  /** Text made only of `c` is a run of `c`. */
  lemma AllOfRun(s: string, c: char)
    requires forall k | 0 <= k < |s| :: s[k] == c
    ensures s == Repeat(c, |s|)
  {
  }

  /** A leading run of `c` in front of text not starting with `c` is exactly the run. */
  lemma {:induction false} LeadingRunOfRepeat(c: char, i: nat, y: string)
    requires y == "" || y[0] != c
    ensures LeadingRun(Repeat(c, i) + y, c) == i
  {
    if i > 0 {
      assert (Repeat(c, i) + y)[1..] == Repeat(c, i - 1) + y;
      LeadingRunOfRepeat(c, i - 1, y);
    }
  }

  /** A trailing run of `c` behind text not ending in `c` is exactly the run. */
  lemma {:induction false} TrailingRunOfRepeat(c: char, x: string, j: nat)
    requires x == "" || x[|x| - 1] != c
    ensures TrailingRun(x + Repeat(c, j), c) == j
  {
    if j > 0 {
      var s := x + Repeat(c, j);
      assert s[|s| - 1] == c;
      assert s[..|s| - 1] == x + Repeat(c, j - 1) by {
        assert Repeat(c, j) == Repeat(c, j - 1) + [c];
      }
      TrailingRunOfRepeat(c, x, j - 1);
    }
  }

  /**
   * Trimming undoes quoting: text that neither starts nor ends with `c`,
   * wrapped in any number of `c` on either side, trims back to itself.
   */
  lemma {:induction false} TrimUndoesWrapping(x: string, c: char, i: nat, j: nat)
    requires x == "" || (x[0] != c && x[|x| - 1] != c)
    ensures Trim(Repeat(c, i) + x + Repeat(c, j), c) == x
  {
    var s := Repeat(c, i) + x + Repeat(c, j);
    if x == "" {
      assert s == Repeat(c, i + j) by {
        assert forall k | 0 <= k < |s| :: s[k] == c;
      }
      LeadingRunOfRepeat(c, i + j, "");
      assert s[i + j..] == "";
    } else {
      var y := x + Repeat(c, j);
      assert s == Repeat(c, i) + y;
      LeadingRunOfRepeat(c, i, y);
      assert s[i..] == y;
      TrailingRunOfRepeat(c, x, j);
      assert y[..|y| - j] == x;
    }
  }

  /** Trimming twice is trimming once. */
  lemma TrimIdempotent(s: string, c: char)
    ensures Trim(Trim(s, c), c) == Trim(s, c)
  {
    var r := Trim(s, c);
    assert Repeat(c, 0) + r + Repeat(c, 0) == r;
    TrimUndoesWrapping(r, c, 0, 0);
  }
}
