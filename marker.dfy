/**
 * The tuning-trouble marker search: slide a window of `charLength` characters over the
 * datastream and report where the first window of pairwise different characters is found.
 * `findStart` rotates its first window instead of advancing it for the first `charLength`
 * indices, reports 0 when that first window is already a marker, and never checks the
 * window that ends at the end of the stream.
 */
module Marker {
  import opened Results

  /**
   * `takeAndRemove`: the first `n` characters; the string itself is left as it was, since the
   * string `removeRange` builds is dropped. `take` throws for a negative `n`, and
   * `removeRange(0..n)` throws unless `n + 1 <= |s|`.
   */
  function TakeAndRemove(s: string, n: int): (r: Option<string>)
    ensures r.Some? <==> 0 <= n < |s|
    ensures r.Some? ==> |r.value| == n && r.value + s[n..] == s
  {
    if n < 0 || n + 1 > |s| then None else Some(s[..n])
  }

  /** The characters of a string as a set (`toSet()`). */
  function Elements(s: string): set<char>
  {
    if s == [] then {} else Elements(s[..|s| - 1]) + {s[|s| - 1]}
  }

  /** A character is an element exactly when it occurs at some index. */
  lemma {:induction false} ElementsHas(s: string, c: char)
    ensures c in Elements(s) <==> exists i :: 0 <= i < |s| && s[i] == c
    decreases |s|
  {
    if s != [] {
      var init := s[..|s| - 1];
      ElementsHas(init, c);
      if c in Elements(init) {
        var i :| 0 <= i < |init| && init[i] == c;
        assert s[i] == c;
      }
      if exists i :: 0 <= i < |s| && s[i] == c {
        var i :| 0 <= i < |s| && s[i] == c;
        if i < |init| {
          assert init[i] == c;
        }
      }
    }
  }

  predicate Distinct(s: string)
  {
    forall i, j :: 0 <= i < j < |s| ==> s[i] != s[j]
  }

  /** The `n` characters before index `k` are all different. */
  predicate MarkerAt(input: string, n: nat, k: nat)
    requires n <= k <= |input|
  {
    Distinct(input[k - n..k])
  }

  /** A string has as many different characters as it has characters exactly when no character repeats. */
  lemma {:induction false} CardIffDistinct(s: string)
    ensures |Elements(s)| <= |s|
    ensures |Elements(s)| == |s| <==> Distinct(s)
    decreases |s|
  {
    if s != [] {
      var init := s[..|s| - 1];
      var last := s[|s| - 1];
      CardIffDistinct(init);
      ElementsHas(init, last);
      if last in Elements(init) {
        var i :| 0 <= i < |init| && init[i] == last;
        assert s[i] == s[|s| - 1];
        assert Elements(s) == Elements(init);
      } else {
        assert |Elements(s)| == |Elements(init)| + 1;
        if Distinct(init) {
          forall i, j | 0 <= i < j < |s| ensures s[i] != s[j] {
            if j == |s| - 1 {
              assert init[i] == s[i];
            } else {
              assert init[i] == s[i] && init[j] == s[j];
            }
          }
        }
        if Distinct(s) {
          forall i, j | 0 <= i < j < |init| ensures init[i] != init[j] {
            assert s[i] == init[i] && s[j] == init[j];
          }
        }
      }
    }
  }

  /**
   * The deque `findStart` checks at index `k`: its first window rotated `k` times while
   * `k <= n`, and from then on the `n` characters before index `k`.
   */
  function Window(input: string, n: nat, k: nat): string
    requires n <= |input| && k <= |input|
  {
    if k <= n then input[k..n] + input[..k] else input[k - n..k]
  }

  /** A rotation has the same characters as the window it was rotated from. */
  lemma RotationElements(input: string, n: nat, k: nat)
    requires k <= n <= |input|
    ensures Elements(input[k..n] + input[..k]) == Elements(input[..n])
    ensures |input[k..n] + input[..k]| == n
  {
    var w := input[k..n] + input[..k];
    forall c | c in Elements(w) ensures c in Elements(input[..n]) {
      ElementsHas(w, c);
      ElementsHas(input[..n], c);
      var i :| 0 <= i < |w| && w[i] == c;
      if i < n - k {
        assert input[..n][k + i] == c;
      } else {
        assert input[..n][i - (n - k)] == c;
      }
    }
    forall c | c in Elements(input[..n]) ensures c in Elements(w) {
      ElementsHas(w, c);
      ElementsHas(input[..n], c);
      var i :| 0 <= i < n && input[..n][i] == c;
      if i >= k {
        assert w[i - k] == c;
      } else {
        assert w[n - k + i] == c;
      }
    }
  }

  /** `deque.toSet().size == charLength` at index `k`. */
  predicate Checked(input: string, n: nat, k: nat)
    requires n <= |input| && k <= |input|
  {
    |Elements(Window(input, n, k))| == n
  }

  /** Sliding once more drops the deque's first character and appends the one at `k`. */
  lemma WindowStep(input: string, n: nat, k: nat)
    requires 0 < n <= |input| && k < |input| && |Window(input, n, k)| == n
    ensures Window(input, n, k + 1) == Window(input, n, k)[1..] + [input[k]]
  {
    if k + 1 <= n {
      RotateStep(input, n, k);
    } else if k == n {
      assert input[n..n] + input[..n] == input[..n];
      SlideStep(input, n, k);
    } else {
      SlideStep(input, n, k);
    }
  }

  lemma RotateStep(input: string, n: nat, k: nat)
    requires k < n <= |input|
    ensures input[k + 1..n] + input[..k + 1] == (input[k..n] + input[..k])[1..] + [input[k]]
  {
    var w := input[k..n] + input[..k];
    var v := input[k + 1..n] + input[..k + 1];
    assert |v| == n == |w|;
    forall i | 0 <= i < n
      ensures v[i] == (w[1..] + [input[k]])[i]
    {
      if i < n - k - 1 {
        assert v[i] == input[k + 1 + i] == w[1 + i];
      } else if i < n - 1 {
        assert v[i] == input[i - (n - k - 1)] == w[i + 1];
      }
    }
  }

  lemma SlideStep(input: string, n: nat, k: nat)
    requires 0 < n <= k < |input|
    ensures input[k + 1 - n..k + 1] == input[k - n..k][1..] + [input[k]]
  {
    var w := input[k - n..k];
    var v := input[k + 1 - n..k + 1];
    forall i | 0 <= i < n
      ensures v[i] == (w[1..] + [input[k]])[i]
    {
      if i < n - 1 {
        assert v[i] == input[k + 1 - n + i] == w[i + 1];
      }
    }
  }

  /** The loop of `findStart` from index `k` on: the first index whose deque is all different, or -1. */
  function StartFrom(input: string, n: nat, k: nat): int
    requires n < |input| && k <= |input|
    decreases |input| - k
  {
    if k == |input| then -1
    else if Checked(input, n, k) then k
    else StartFrom(input, n, k + 1)
  }

  /** `findStart` as written, with `None` where `takeAndRemove` throws. */
  function FindStartAsWritten(input: string, charLength: int): Option<int>
  {
    if 0 <= charLength < |input| then Some(StartFrom(input, charLength, 0)) else None
  }

  /** `findStart`: the deque is loaded with the first window and slid along the input. */
  method FindStart(input: string, charLength: int) returns (r: Option<int>)
    ensures r == FindStartAsWritten(input, charLength)
  {
    var taken := TakeAndRemove(input, charLength);
    if taken.None? {
      return None;
    }
    var n: nat := charLength;
    var deque := taken.value;
    var index := 0;
    while index < |input|
      invariant 0 <= index <= |input| && |deque| == n
      invariant deque == Window(input, n, index)
      invariant StartFrom(input, n, 0) == StartFrom(input, n, index)
    {
      if |Elements(deque)| == n {
        return Some(index);
      }
      WindowStep(input, n, index);
      deque := deque[1..] + [input[index]];
      index := index + 1;
    }
    return Some(-1);
  }

  /** What the search from `k` finds: no earlier deque passed the check, and the found one does. */
  lemma {:induction false} StartFromFinds(input: string, n: nat, k: nat)
    requires n < |input| && k <= |input|
    ensures var r := StartFrom(input, n, k);
      && (r == -1 || k <= r < |input|)
      && (r != -1 ==> Checked(input, n, r))
      && forall j :: k <= j < |input| && (r == -1 || j < r) ==> !Checked(input, n, j)
  {
    StartFromFound(input, n, k);
    StartFromFirst(input, n, k);
  }

  lemma {:induction false} StartFromFound(input: string, n: nat, k: nat)
    requires n < |input| && k <= |input|
    ensures var r := StartFrom(input, n, k);
      && (r == -1 || k <= r < |input|)
      && (r != -1 ==> Checked(input, n, r))
    decreases |input| - k
  {
    if k < |input| && !Checked(input, n, k) {
      StartFromFound(input, n, k + 1);
    }
  }

  lemma {:induction false} StartFromFirst(input: string, n: nat, k: nat)
    requires n < |input| && k <= |input|
    ensures var r := StartFrom(input, n, k);
      forall j :: k <= j < |input| && (r == -1 || j < r) ==> !Checked(input, n, j)
  {
    var checks := seq(|input|, j requires 0 <= j < |input| => Checked(input, n, j));
    StartFromIsFirst(input, n, checks, k);
    FirstFromFirst(checks, k);
  }

  /** The index of the first `true` from `k` on, or -1. */
  function FirstFrom(b: seq<bool>, k: nat): int
    requires k <= |b|
    decreases |b| - k
  {
    if k == |b| then -1 else if b[k] then k else FirstFrom(b, k + 1)
  }

  lemma {:induction false} FirstFromFirst(b: seq<bool>, k: nat)
    requires k <= |b|
    ensures var r := FirstFrom(b, k);
      forall j :: k <= j < |b| && (r == -1 || j < r) ==> !b[j]
    decreases |b| - k
  {
    if k < |b| && !b[k] {
      FirstFromFirst(b, k + 1);
    }
  }

  lemma {:induction false} StartFromIsFirst(input: string, n: nat, checks: seq<bool>, k: nat)
    requires n < |input| && k <= |input| && |checks| == |input|
    requires forall j :: 0 <= j < |input| ==> checks[j] == Checked(input, n, j)
    ensures StartFrom(input, n, k) == FirstFrom(checks, k)
    decreases |input| - k
  {
    if k < |input| {
      assert checks[k] == Checked(input, n, k);
      StartFromIsFirst(input, n, checks, k + 1);
    }
  }

  /** The check passes exactly when the deque's characters are all different, and at index `k >= n` it looks at the `n` before `k`. */
  lemma CheckedMeans(input: string, n: nat, k: nat)
    requires n < |input| && k < |input|
    ensures k <= n ==> (Checked(input, n, k) <==> MarkerAt(input, n, n))
    ensures k >= n ==> (Checked(input, n, k) <==> MarkerAt(input, n, k))
  {
    if k <= n {
      RotationElements(input, n, k);
      CardIffDistinct(input[..n]);
      assert input[..n] == input[n - n..n];
    } else {
      CardIffDistinct(Window(input, n, k));
    }
  }

  /**
   * What `findStart` reports for `0 <= n < |input|`: 0 exactly when the first `n` characters
   * are all different; otherwise the first index `r > n` such that the `n` characters before it
   * are all different; and -1 when there is none, without looking at the last window
   * `input[|input| - n..]`.
   */
  lemma FindStartMeaning(input: string, n: nat)
    requires n < |input|
    ensures var r := FindStartAsWritten(input, n).value;
      && r >= -1
      && (r == 0 <==> MarkerAt(input, n, n))
      && (r > 0 ==> n < r < |input| && MarkerAt(input, n, r))
      && (r > 0 ==> forall k :: n <= k < r ==> !MarkerAt(input, n, k))
      && (r == -1 <==> forall k :: n <= k < |input| ==> !MarkerAt(input, n, k))
  {
    var r := StartFrom(input, n, 0);
    StartFromFinds(input, n, 0);
    CheckedMeans(input, n, 0);
    forall k | 0 <= k < |input| ensures k <= n ==> (Checked(input, n, k) <==> MarkerAt(input, n, n))
      ensures k >= n ==> (Checked(input, n, k) <==> MarkerAt(input, n, k))
    {
      CheckedMeans(input, n, k);
    }
  }

  /**
   * The evident intent: the number of characters read when the first run of `n` different
   * characters is complete, looking at every window including the last one.
   */
  function MarkerEnd(input: string, n: nat, k: nat): (r: Option<nat>)
    requires n <= k <= |input|
    ensures r.Some? ==> k <= r.value <= |input| && MarkerAt(input, n, r.value)
    ensures forall j :: k <= j <= |input| && (r.None? || j < r.value) ==> !MarkerAt(input, n, j)
    decreases |input| - k
  {
    if MarkerAt(input, n, k) then Some(k)
    else if k == |input| then None
    else MarkerEnd(input, n, k + 1)
  }

  function Marker(input: string, n: nat): Option<nat>
    requires n <= |input|
  {
    MarkerEnd(input, n, n)
  }

  /** Where `findStart` finds a marker past its first window, it reports what `Marker` does. */
  lemma AgreesPastFirstWindow(input: string, n: nat)
    requires n < |input| && FindStartAsWritten(input, n).value > 0
    ensures Marker(input, n) == Some(FindStartAsWritten(input, n).value as nat)
  {
    FindStartMeaning(input, n);
  }

  /** "abcde" with windows of four: the first window is already a marker, reported as 0 instead of 4. */
  lemma FirstWindowReportsZero()
    ensures FindStartAsWritten("abcde", 4) == Some(0)
    ensures Marker("abcde", 4) == Some(4)
  {
    assert MarkerAt("abcde", 4, 4);
    FindStartMeaning("abcde", 4);
  }

  /** "aabc" with windows of three: only the last window is a marker, which is never looked at. */
  lemma LastWindowNeverChecked()
    ensures FindStartAsWritten("aabc", 3) == Some(-1)
    ensures Marker("aabc", 3) == Some(4)
  {
    var input := "aabc";
    FindStartMeaning(input, 3);
    assert !MarkerAt(input, 3, 3) by {
      assert input[0..3][0] == input[0..3][1];
    }
    assert MarkerAt(input, 3, 4);
    assert MarkerEnd(input, 3, 4) == Some(4);
    assert MarkerEnd(input, 3, 3) == Some(4);
  }
}
