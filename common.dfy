/** The error path of the solvers: `None` stands for an exception thrown by the Kotlin code. */
module Results {
  datatype Option<+T> = None | Some(value: T)
}

/** Sums and products over sequences, shared by several solvers. */
module Seqs {

  function Sum(s: seq<int>): int
  {
    if s == [] then 0 else Sum(s[..|s| - 1]) + s[|s| - 1]
  }

  function Product(s: seq<int>): int
  {
    if s == [] then 1 else Product(s[..|s| - 1]) * s[|s| - 1]
  }

  /** Summing distributes over concatenation. */
  lemma {:induction false} SumAppend(a: seq<int>, b: seq<int>)
    ensures Sum(a + b) == Sum(a) + Sum(b)
    decreases |b|
  {
    if b == [] {
      assert a + b == a;
    } else {
      assert (a + b)[..|a + b| - 1] == a + b[..|b| - 1];
      SumAppend(a, b[..|b| - 1]);
    }
  }

  /** The sum of non-negative numbers bounds each of them. */
  lemma {:induction false} SumBoundsElements(s: seq<int>, i: nat)
    requires forall k :: 0 <= k < |s| ==> s[k] >= 0
    requires i < |s|
    ensures 0 <= s[i] <= Sum(s)
    decreases |s|
  {
    if i < |s| - 1 {
      SumBoundsElements(s[..|s| - 1], i);
      SumNonNegative(s[..|s| - 1]);
    } else {
      SumNonNegative(s[..|s| - 1]);
    }
  }

  lemma {:induction false} SumNonNegative(s: seq<int>)
    requires forall k :: 0 <= k < |s| ==> s[k] >= 0
    ensures Sum(s) >= 0
    decreases |s|
  {
    if s != [] {
      SumNonNegative(s[..|s| - 1]);
    }
  }

  /** Every factor of a product of positive numbers divides it, and the product is positive. */
  lemma {:induction false} ProductOfPositives(s: seq<int>, i: nat)
    requires forall k :: 0 <= k < |s| ==> s[k] > 0
    requires i < |s|
    ensures Product(s) > 0
    ensures Product(s) % s[i] == 0
  {
    ProductPositive(s);
    var q := Cofactor(s, i);
    MultipleMod(q, s[i]);
  }

  /** The product with factor `i` taken out: `Product(s) == q * s[i]`. */
  lemma {:induction false} Cofactor(s: seq<int>, i: nat) returns (q: int)
    requires i < |s|
    ensures Product(s) == q * s[i]
    decreases |s|
  {
    var init := s[..|s| - 1];
    var last := s[|s| - 1];
    if i < |s| - 1 {
      var q0 := Cofactor(init, i);
      q := q0 * last;
      calc {
        Product(s);
        Product(init) * last;
        (q0 * s[i]) * last;
        { MulRearrange(q0, s[i], last); }
        (q0 * last) * s[i];
      }
    } else {
      q := Product(init);
    }
  }

  lemma MulRearrange(a: int, b: int, c: int)
    ensures (a * b) * c == (a * c) * b
  {
  }

  lemma MultipleMod(k: int, d: int)
    requires d > 0
    ensures (k * d) % d == 0
  {
    ModShift(0, k, d);
  }

  /** Adding a multiple of `d` does not change the remainder modulo `d`. */
  lemma {:induction false} ModShift(r: int, m: int, d: int)
    requires d > 0
    ensures (r + m * d) % d == r % d
    decreases if m < 0 then -m else m
  {
    if m > 0 {
      ModShift(r, m - 1, d);
      assert r + m * d == (r + (m - 1) * d) + d;
      ModStep(r + (m - 1) * d, d);
    } else if m < 0 {
      ModShift(r, m + 1, d);
      assert r + (m + 1) * d == (r + m * d) + d;
      ModStep(r + m * d, d);
    }
  }

  lemma ModStep(y: int, d: int)
    requires d > 0
    ensures (y + d) % d == y % d
  {
    var q, r := y / d, y % d;
    assert y + d == d * (q + 1) + r;
    ModUnique(y + d, d, q + 1, r);
  }

  /** Euclidean division has a unique remainder. */
  lemma ModUnique(a: int, d: int, q: int, r: int)
    requires d > 0 && 0 <= r < d && a == d * q + r
    ensures a % d == r
  {
    var q', r' := a / d, a % d;
    assert d * (q - q') == r' - r;
    if q - q' >= 1 {
      MulAtLeast(d, q - q');
    } else if q' - q >= 1 {
      MulAtLeast(d, q' - q);
    }
  }

  lemma MulAtLeast(d: int, k: int)
    requires d > 0 && k >= 1
    ensures d * k >= d
  {
  }

  lemma {:induction false} ProductPositive(s: seq<int>)
    requires forall k :: 0 <= k < |s| ==> s[k] > 0
    ensures Product(s) > 0
    decreases |s|
  {
    if s != [] {
      ProductPositive(s[..|s| - 1]);
    }
  }

  /** Kotlin `chunked(size)`: consecutive pieces of `size` elements, the last one possibly shorter. */
  function Chunked<T>(s: seq<T>, size: nat): (r: seq<seq<T>>)
    requires size > 0
    ensures forall i :: 0 <= i < |r| ==> 0 < |r[i]| <= size
    ensures forall i :: 0 <= i < |r| - 1 ==> |r[i]| == size
    decreases |s|
  {
    if s == [] then []
    else if |s| <= size then [s]
    else [s[..size]] + Chunked(s[size..], size)
  }

  function Flatten<T>(chunks: seq<seq<T>>): seq<T>
    decreases |chunks|
  {
    if chunks == [] then [] else chunks[0] + Flatten(chunks[1..])
  }

  /** Chunking cuts the sequence into pieces and loses nothing: put back together, the pieces are the sequence. */
  lemma {:induction false} ChunkedFlatten<T>(s: seq<T>, size: nat)
    requires size > 0
    ensures Flatten(Chunked(s, size)) == s
    decreases |s|
  {
    if |s| > size {
      ChunkedFlatten(s[size..], size);
      assert s[..size] + s[size..] == s;
    } else if s != [] {
      assert Chunked(s, size)[1..] == [];
    }
  }

  /** Chunk `i` is the slice that starts at `i * size`. */
  lemma {:induction false} ChunkAt<T>(s: seq<T>, size: nat, i: nat)
    requires size > 0 && i < |Chunked(s, size)|
    ensures i * size < |s|
    ensures Chunked(s, size)[i] == s[i * size .. if (i + 1) * size <= |s| then (i + 1) * size else |s|]
    decreases |s|
  {
    if |s| > size && i > 0 {
      ChunkAt(s[size..], size, i - 1);
      assert (i - 1) * size + size == i * size;
      assert i * size + size == (i + 1) * size;
    }
  }

  /** The elements of `s` in the opposite order. */
  function Reversed<T>(s: seq<T>): (r: seq<T>)
    ensures |r| == |s|
    decreases |s|
  {
    if s == [] then [] else [s[|s| - 1]] + Reversed(s[..|s| - 1])
  }

  lemma {:induction false} ReversedAt<T>(s: seq<T>, i: nat)
    requires i < |s|
    ensures Reversed(s)[i] == s[|s| - 1 - i]
    decreases |s|
  {
    if i > 0 {
      ReversedAt(s[..|s| - 1], i - 1);
    }
  }

  lemma ReversedTwice<T>(s: seq<T>)
    ensures Reversed(Reversed(s)) == s
  {
    forall i | 0 <= i < |s| ensures Reversed(Reversed(s))[i] == s[i] {
      ReversedAt(Reversed(s), i);
      ReversedAt(s, |s| - 1 - i);
    }
  }

  lemma ReversedAppend<T>(a: seq<T>, b: seq<T>)
    ensures Reversed(a + b) == Reversed(b) + Reversed(a)
  {
    forall i | 0 <= i < |a| + |b| ensures Reversed(a + b)[i] == (Reversed(b) + Reversed(a))[i] {
      ReversedAt(a + b, i);
      if i < |b| {
        ReversedAt(b, i);
      } else {
        ReversedAt(a, i - |b|);
      }
    }
  }
}

/**
 * The few pieces of Kotlin's string library that the solvers parse their input with:
 * `split` on a one-character delimiter, `toInt`, `isBlank`.
 */
module Text {
  import opened Results

  const IntMin: int := -0x8000_0000
  const IntMax: int := 0x7fff_ffff

  /** Kotlin `split(sep)`: every occurrence of `sep` splits, and empty pieces are kept. */
  function Split(s: string, sep: char): (parts: seq<string>)
    ensures |parts| >= 1
    ensures forall i :: 0 <= i < |parts| ==> sep !in parts[i]
    ensures Join(parts, sep) == s
    decreases |s|
  {
    if s == [] then [""]
    else
      var rest := Split(s[1..], sep);
      if s[0] == sep then [""] + rest
      else [[s[0]] + rest[0]] + rest[1..]
  }

  /** The pieces put back together with the delimiter between them. */
  function Join(parts: seq<string>, sep: char): string
    requires |parts| >= 1
    decreases |parts|
  {
    if |parts| == 1 then parts[0] else parts[0] + [sep] + Join(parts[1..], sep)
  }

  /** Splitting recovers the pieces that were joined, when no piece holds the delimiter. */
  lemma {:induction false} SplitJoin(parts: seq<string>, sep: char)
    requires |parts| >= 1
    requires forall i :: 0 <= i < |parts| ==> sep !in parts[i]
    ensures Split(Join(parts, sep), sep) == parts
    decreases |parts|, |parts[0]|
  {
    if |parts| == 1 {
      SplitNoSeparator(parts[0], sep);
    } else if parts[0] == [] {
      var tail := Join(parts[1..], sep);
      assert Join(parts, sep) == [sep] + tail;
      assert ([sep] + tail)[1..] == tail;
      SplitJoin(parts[1..], sep);
      assert [parts[0]] + parts[1..] == parts;
    } else {
      var shorter := [parts[0][1..]] + parts[1..];
      assert shorter[1..] == parts[1..];
      assert Join(parts, sep) == [parts[0][0]] + Join(shorter, sep);
      assert ([parts[0][0]] + Join(shorter, sep))[1..] == Join(shorter, sep);
      SplitJoin(shorter, sep);
      assert [parts[0][0]] + parts[0][1..] == parts[0];
      assert [[parts[0][0]] + parts[0][1..]] + parts[1..] == parts;
    }
  }

  lemma {:induction false} SplitNoSeparator(s: string, sep: char)
    requires sep !in s
    ensures Split(s, sep) == [s]
    decreases |s|
  {
    if s != [] {
      SplitNoSeparator(s[1..], sep);
      assert [s[0]] + s[1..] == s;
    }
  }

  predicate IsDigit(c: char) { '0' <= c <= '9' }

  function DigitValue(c: char): nat
    requires IsDigit(c)
  {
    (c as int) - ('0' as int)
  }

  /** The value of a string of decimal digits, most significant first. */
  function DecimalValue(ds: string): nat
    requires forall i :: 0 <= i < |ds| ==> IsDigit(ds[i])
    decreases |ds|
  {
    if ds == [] then 0 else DecimalValue(ds[..|ds| - 1]) * 10 + DigitValue(ds[|ds| - 1])
  }

  /**
   * Kotlin `String.toInt()`: an optional sign and at least one decimal digit, whose value
   * fits a 32-bit `Int`; anything else throws `NumberFormatException` (here `None`).
   */
  function ParseInt(s: string): (r: Option<int>)
    ensures r.Some? ==> IntMin <= r.value <= IntMax
    ensures s == [] ==> r == None
  {
    if s == [] then None
    else
      var negative := s[0] == '-';
      var digits := if s[0] == '-' || s[0] == '+' then s[1..] else s;
      if digits == [] || exists i :: 0 <= i < |digits| && !IsDigit(digits[i]) then None
      else
        var magnitude: int := DecimalValue(digits);
        var v := if negative then -magnitude else magnitude;
        if IntMin <= v <= IntMax then Some(v) else None
  }

  /** The decimal rendering of a natural number, without leading zeros. */
  function NatToString(n: nat): (s: string)
    ensures |s| >= 1
    ensures forall i :: 0 <= i < |s| ==> IsDigit(s[i])
    decreases n
  {
    if n < 10 then [('0' as int + n) as char]
    else NatToString(n / 10) + [('0' as int + n % 10) as char]
  }

  lemma {:induction false} DecimalValueOfNatToString(n: nat)
    ensures DecimalValue(NatToString(n)) == n
    decreases n
  {
    var s := NatToString(n);
    if n >= 10 {
      DecimalValueOfNatToString(n / 10);
      assert s[..|s| - 1] == NatToString(n / 10);
    }
  }

  /** Rendering a non-negative `Int` and parsing it back gives the number again. */
  lemma ParseNatToString(n: nat)
    requires n <= IntMax
    ensures ParseInt(NatToString(n)) == Some(n)
  {
    DecimalValueOfNatToString(n);
  }

  /** The decimal rendering of an integer, with a minus sign when it is negative. */
  function IntToString(n: int): (s: string)
    ensures |s| >= 1 && ' ' !in s
  {
    if n < 0 then "-" + NatToString(-n) else NatToString(n)
  }

  /** Rendering an `Int` and parsing it back gives the number again. */
  lemma ParseIntToString(n: int)
    requires IntMin <= n <= IntMax
    ensures ParseInt(IntToString(n)) == Some(n)
  {
    if n < 0 {
      ParseNegatedNatToString(-n);
    } else {
      ParseNatToString(n);
    }
  }

  /** A minus sign before the rendering of a positive number parses to its negation. */
  lemma ParseNegatedNatToString(m: nat)
    requires 0 < m <= -IntMin
    ensures ParseInt("-" + NatToString(m)) == Some(-(m as int))
  {
    var s := "-" + NatToString(m);
    var digits := NatToString(m);
    DecimalValueOfNatToString(m);
    assert s[0] == '-' && s[1..] == digits;
    assert !exists i :: 0 <= i < |digits| && !IsDigit(digits[i]);
  }

  /** Kotlin `startsWith(prefix)`. */
  predicate StartsWith(s: string, prefix: string)
  {
    |prefix| <= |s| && s[..|prefix|] == prefix
  }

  /**
   * Kotlin `Char.isWhitespace`: Java's `Character.isWhitespace` or `Character.isSpaceChar`, that is
   * the ASCII controls tab to carriage return and file to unit separator, and every Unicode space,
   * line or paragraph separator, the no-break spaces included.
   */
  predicate IsWhitespace(c: char)
  {
    || '\t' <= c <= '\r'
    || '\U{1C}' <= c <= ' '
    || c == '\U{A0}'
    || c == '\U{1680}'
    || '\U{2000}' <= c <= '\U{200A}'
    || c == '\U{2028}' || c == '\U{2029}'
    || c == '\U{202F}' || c == '\U{205F}' || c == '\U{3000}'
  }

  /** Kotlin `isBlank`: empty or made of whitespace only. */
  predicate IsBlank(s: string)
  {
    forall i :: 0 <= i < |s| ==> IsWhitespace(s[i])
  }
}
