/**
 * The plain meaning of the string helpers the sources call:
 *
 * - `split`, `tokenize` and `tokenize_first`, which cut a text at a delimiter;
 * - the search for a pattern;
 * - the printing and reading of decimal numbers.
 */
module Text {
  import opened Octets

  /** `split`: the fields between delimiters, empty ones included. */
  function Split<T(==)>(s: seq<T>, d: T): (fields: seq<seq<T>>)
    ensures |fields| >= 1
  {
    if s == [] then [[]]
    else
      var rest := Split(s[1..], d);
      if s[0] == d then [[]] + rest else [[s[0]] + rest[0]] + rest[1..]
  }

  lemma {:induction false} SplitWhole<T>(s: seq<T>, d: T)
    requires d !in s
    ensures Split(s, d) == [s]
  {
    if s != [] {
      assert s[0] != d && d !in s[1..];
      SplitWhole(s[1..], d);
      assert [s[0]] + s[1..] == s;
    }
  }

  lemma {:induction false} SplitAt<T>(a: seq<T>, d: T, b: seq<T>)
    requires d !in a
    ensures Split(a + [d] + b, d) == [a] + Split(b, d)
  {
    var s := a + [d] + b;
    if a == [] {
      assert s[1..] == b;
    } else {
      assert a[0] != d && d !in a[1..];
      assert s[1..] == a[1..] + [d] + b;
      SplitAt(a[1..], d, b);
      assert [a[0]] + a[1..] == a;
    }
  }

  /** The number of fields is one more than the number of delimiters. */
  lemma {:induction false} SplitCounts<T>(a: seq<T>, d: T, b: seq<T>)
    ensures |Split(a + [d] + b, d)| == |Split(a, d)| + |Split(b, d)|
  {
    var s := a + [d] + b;
    if a == [] {
      assert s[1..] == b;
    } else {
      assert s[1..] == a[1..] + [d] + b;
      SplitCounts(a[1..], d, b);
    }
  }

  /** A last field without delimiters. */
  lemma {:induction false} SplitLast<T>(a: seq<T>, d: T, b: seq<T>)
    requires d !in b
    ensures Split(a + [d] + b, d) == Split(a, d) + [b]
  {
    var s := a + [d] + b;
    SplitWhole(b, d);
    if a == [] {
      assert s[1..] == b;
    } else {
      assert s[1..] == a[1..] + [d] + b;
      SplitLast(a[1..], d, b);
    }
  }

  lemma {:induction false} SplitMany<T>(s: seq<T>, d: T)
    requires d in s
    ensures |Split(s, d)| >= 2
  {
    if s[0] != d {
      assert d in s[1..];
      SplitMany(s[1..], d);
    }
  }

  /** The fields with the delimiter between them. */
  function Join<T>(fields: seq<seq<T>>, d: T): seq<T>
    requires fields != []
  {
    if |fields| == 1 then fields[0] else fields[0] + [d] + Join(fields[1..], d)
  }

  /** Splitting is undone by joining, and no field holds a delimiter. */
  lemma {:induction false} SplitJoins<T>(s: seq<T>, d: T)
    ensures Join(Split(s, d), d) == s
    ensures forall i :: 0 <= i < |Split(s, d)| ==> d !in Split(s, d)[i]
  {
    if s != [] {
      SplitJoins(s[1..], d);
      var rest := Split(s[1..], d);
      if s[0] == d {
        assert ([[]] + rest)[1..] == rest;
      } else {
        assert ([[s[0]] + rest[0]] + rest[1..])[1..] == rest[1..];
      }
    }
  }

  /** `tokenize`: the non-empty fields. */
  function Tokenize<T(==)>(s: seq<T>, d: T): seq<seq<T>> {
    NonEmpty(Split(s, d))
  }

  function NonEmpty<T(==)>(fields: seq<seq<T>>): seq<seq<T>> {
    if fields == [] then [] else (if fields[0] == [] then [] else [fields[0]]) + NonEmpty(fields[1..])
  }

  lemma {:induction false} NoEmptyTokens<T>(fields: seq<seq<T>>)
    ensures forall i :: 0 <= i < |NonEmpty(fields)| ==> NonEmpty(fields)[i] != []
  {
    if fields != [] {
      NoEmptyTokens(fields[1..]);
    }
  }

  lemma TokenizeAt<T>(a: seq<T>, d: T, b: seq<T>)
    requires d !in a && a != []
    ensures Tokenize(a + [d] + b, d) == [a] + Tokenize(b, d)
  {
    SplitAt(a, d, b);
  }

  lemma TokenizeWhole<T>(a: seq<T>, d: T)
    requires d !in a && a != []
    ensures Tokenize(a, d) == [a]
  {
    SplitWhole(a, d);
    assert NonEmpty([a]) == [a] + NonEmpty([]);
  }

  function LowerChar(c: char): char {
    if 'A' <= c <= 'Z' then (c as int + 32) as char else c
  }

  /** `tolower` of every character. */
  function Lower(s: string): string {
    if s == [] then [] else [LowerChar(s[0])] + Lower(s[1..])
  }

  /** The rest of a text after the delimiters it starts with. */
  function SkipAll<T(==)>(s: seq<T>, d: T): seq<T> {
    if s != [] && s[0] == d then SkipAll(s[1..], d) else s
  }

  /** `tokenize_first`: what stands before the first delimiter and after it and its repetitions. */
  function TokenizeFirst<T(==)>(s: seq<T>, d: T): Option<(seq<T>, seq<T>)> {
    if s == [] then None
    else if s[0] == d then Some(([], SkipAll(s[1..], d)))
    else
      match TokenizeFirst(s[1..], d)
      case None => None
      case Some(pair) => Some(([s[0]] + pair.0, pair.1))
  }

  lemma {:induction false} TokenizeFirstAt<T>(a: seq<T>, d: T, b: seq<T>)
    requires d !in a
    ensures TokenizeFirst(a + [d] + b, d) == Some((a, SkipAll(b, d)))
  {
    var s := a + [d] + b;
    if a == [] {
      assert s[1..] == b;
    } else {
      assert s[1..] == a[1..] + [d] + b;
      TokenizeFirstAt(a[1..], d, b);
      assert [a[0]] + a[1..] == a;
    }
  }

  predicate StandsAt<T(==)>(s: seq<T>, pattern: seq<T>, i: nat) {
    i + |pattern| <= |s| && s[i..i + |pattern|] == pattern
  }

  /** `find(...) != npos`. */
  predicate Contains<T(==)>(s: seq<T>, pattern: seq<T>) {
    exists i :: 0 <= i <= |s| && StandsAt(s, pattern, i)
  }

  /** A pattern whose second character occurs nowhere but second can only be found in front. */
  lemma FoundInFront<T>(s: seq<T>, pattern: seq<T>, mark: T)
    requires |pattern| >= 2 && pattern[1] == mark
    requires forall i :: 0 <= i < |s| ==> (s[i] == mark ==> i == 1)
    ensures Contains(s, pattern) <==> pattern <= s
  {
    if i :| 0 <= i <= |s| && StandsAt(s, pattern, i) {
      assert s[i + 1] == s[i..i + |pattern|][1] == mark;
    }
    if pattern <= s {
      assert StandsAt(s, pattern, 0);
    }
  }

  // ---- Decimal numbers ------------------------------------------------------------------------------

  function Digit(n: nat): char
    requires n < 10
  {
    "0123456789"[n]
  }

  predicate IsDigit(c: char) {
    '0' <= c <= '9'
  }

  function DigitValue(c: char): nat
    requires IsDigit(c)
  {
    c as int - '0' as int
  }

  function Decimal(n: nat): (s: string)
    ensures s != []
  {
    if n < 10 then [Digit(n)] else Decimal(n / 10) + [Digit(n % 10)]
  }

  predicate AllDigits(s: string) {
    forall i :: 0 <= i < |s| ==> IsDigit(s[i])
  }

  function DecimalValue(s: string): nat
    requires AllDigits(s)
  {
    if s == [] then 0 else 10 * DecimalValue(s[..|s| - 1]) + DigitValue(s[|s| - 1])
  }

  /** `FromString` into a `uint32_t`, for plain digits. */
  function FromString(s: string): Option<uint32> {
    if s != [] && AllDigits(s) && DecimalValue(s) < 0x1_0000_0000 then Some(DecimalValue(s)) else None
  }

  lemma {:induction false} DecimalReads(n: nat)
    ensures AllDigits(Decimal(n)) && DecimalValue(Decimal(n)) == n
  {
    if n < 10 {
      assert Decimal(n)[..0] == [];
    } else {
      DecimalReads(n / 10);
      assert Decimal(n)[..|Decimal(n)| - 1] == Decimal(n / 10);
    }
  }
}
