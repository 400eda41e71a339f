/** String helpers with the meaning Python's `str` methods have on ASCII text:
    `strip()`, `lower()`, the `in` substring test, `sep.join(xs)`, `s.split(sep)`
    and the slice `s[:n]`. Characters outside ASCII are neither whitespace nor
    case-folded here. */
module Text {

  /** Python's `str.isspace()` restricted to ASCII: tab, line feed, vertical tab,
      form feed, carriage return, the four information separators 28-31, space. */
  predicate IsSpace(c: char) {
    var n := c as int;
    (9 <= n <= 13) || (28 <= n <= 31) || n == 32
  }

  predicate AllSpace(s: string) {
    forall k :: 0 <= k < |s| ==> IsSpace(s[k])
  }

  /** No whitespace at either end. */
  predicate IsStripped(s: string) {
    s == [] || (!IsSpace(s[0]) && !IsSpace(s[|s| - 1]))
  }

  /** `s.lstrip()`: the suffix that remains after dropping leading whitespace. */
  function TrimLeft(s: string): (r: string)
    ensures |r| <= |s|
    ensures r == [] || !IsSpace(r[0])
    decreases |s|
  {
    if s != [] && IsSpace(s[0]) then TrimLeft(s[1..]) else s
  }

  /** What `lstrip()` leaves is a suffix. */
  lemma {:induction false} TrimLeftSuffix(s: string)
    ensures TrimLeft(s) == s[|s| - |TrimLeft(s)|..]
    decreases |s|
  {
    if s != [] && IsSpace(s[0]) {
      TrimLeftSuffix(s[1..]);
    }
  }

  /** What `lstrip()` drops is whitespace. */
  lemma {:induction false} TrimLeftDropsSpace(s: string)
    ensures AllSpace(s[..|s| - |TrimLeft(s)|])
    decreases |s|
  {
    if s != [] && IsSpace(s[0]) {
      TrimLeftDropsSpace(s[1..]);
      var r := TrimLeft(s);
      assert s[..|s| - |r|] == [s[0]] + s[1..][..|s[1..]| - |r|];
    }
  }

  /** `s.rstrip()`: the prefix that remains after dropping trailing whitespace. */
  function TrimRight(s: string): (r: string)
    ensures |r| <= |s|
    ensures r == [] || !IsSpace(r[|r| - 1])
    decreases |s|
  {
    if s != [] && IsSpace(s[|s| - 1]) then TrimRight(s[..|s| - 1]) else s
  }

  /** What `rstrip()` leaves is a prefix. */
  lemma {:induction false} TrimRightPrefix(s: string)
    ensures TrimRight(s) == s[..|TrimRight(s)|]
    decreases |s|
  {
    if s != [] && IsSpace(s[|s| - 1]) {
      TrimRightPrefix(s[..|s| - 1]);
    }
  }

  /** What `rstrip()` drops is whitespace. */
  lemma {:induction false} TrimRightDropsSpace(s: string)
    ensures AllSpace(s[|TrimRight(s)|..])
    decreases |s|
  {
    if s != [] && IsSpace(s[|s| - 1]) {
      TrimRightDropsSpace(s[..|s| - 1]);
      var r := TrimRight(s);
      assert s[|r|..] == s[..|s| - 1][|r|..] + [s[|s| - 1]];
    }
  }

  /** `s.strip()`: the slice `s[i..j]` left once the whitespace at both ends is gone. */
  function Strip(s: string): (r: string)
    ensures |r| <= |s|
    ensures IsStripped(r)
  {
    var l := TrimLeft(s);
    TrimRightPrefix(l);
    TrimRight(l)
  }

  /** What `strip()` leaves is a slice of the text with only whitespace around it. */
  lemma StripTrims(s: string) returns (i: nat)
    ensures Trims(s, Strip(s), i)
  {
    var l := TrimLeft(s);
    var r := TrimRight(l);
    TrimLeftSuffix(s);
    TrimRightPrefix(l);
    TrimLeftDropsSpace(s);
    TrimRightDropsSpace(l);
    i := |s| - |l|;
    assert s[i..i + |r|] == r;
    assert s[i + |r|..] == l[|r|..];
  }

  /** `r` is the slice `s[i..i + |r|]` and everything outside it is whitespace. */
  ghost predicate Trims(s: string, r: string, i: int) {
    0 <= i && i + |r| <= |s| && s[i..i + |r|] == r &&
    AllSpace(s[..i]) && AllSpace(s[i + |r|..])
  }

  /** Stripping is a no-op on text with no whitespace at either end. */
  lemma StripOfStripped(s: string)
    requires IsStripped(s)
    ensures Strip(s) == s
  {
  }

  /** Stripping leaves nothing exactly when the text is all whitespace (the truth
      value of `s.strip()` in Python). */
  lemma {:induction false} StripEmptyIffBlank(s: string)
    ensures Strip(s) == [] <==> AllSpace(s)
  {
    if Strip(s) == [] {
      var i := StripTrims(s);
      forall k | 0 <= k < |s| ensures IsSpace(s[k]) {
        if k < i { assert s[..i][k] == s[k]; } else { assert s[i..][k - i] == s[k]; }
      }
    } else if AllSpace(s) {
      TrimLeftBlank(s);
    }
  }

  /** `lstrip()` leaves nothing of all-whitespace text. */
  lemma {:induction false} TrimLeftBlank(s: string)
    requires AllSpace(s)
    ensures TrimLeft(s) == []
    decreases |s|
  {
    if s != [] {
      assert IsSpace(s[0]);
      assert AllSpace(s[1..]) by {
        forall k | 0 <= k < |s[1..]| ensures IsSpace(s[1..][k]) {
          assert s[1..][k] == s[k + 1];
        }
      }
      TrimLeftBlank(s[1..]);
    }
  }

  /** Leading whitespace is dropped by `lstrip()`. */
  lemma {:induction false} TrimLeftPad(p: string, x: string)
    requires AllSpace(p)
    ensures TrimLeft(p + x) == TrimLeft(x)
    decreases |p|
  {
    if p != [] {
      assert (p + x)[0] == p[0];
      assert (p + x)[1..] == p[1..] + x;
      TrimLeftPad(p[1..], x);
    } else {
      assert p + x == x;
    }
  }

  /** Trailing whitespace is dropped by `rstrip()`. */
  lemma {:induction false} TrimRightPad(x: string, q: string)
    requires AllSpace(q)
    ensures TrimRight(x + q) == TrimRight(x)
    decreases |q|
  {
    if q != [] {
      assert (x + q)[|x + q| - 1] == q[|q| - 1];
      assert (x + q)[..|x + q| - 1] == x + q[..|q| - 1];
      TrimRightPad(x, q[..|q| - 1]);
    } else {
      assert x + q == x;
    }
  }

  /** `lstrip()` of text followed by whitespace: the whitespace stays behind what is
      left, or everything goes when the text was blank. */
  lemma {:induction false} TrimLeftBeforeSpace(s: string, q: string)
    requires AllSpace(q)
    ensures TrimLeft(s + q) == if TrimLeft(s) == [] then [] else TrimLeft(s) + q
    decreases |s|
  {
    if s == [] {
      assert s + q == q + [];
      TrimLeftPad(q, []);
    } else if IsSpace(s[0]) {
      assert (s + q)[0] == s[0];
      assert (s + q)[1..] == s[1..] + q;
      TrimLeftBeforeSpace(s[1..], q);
    } else {
      assert (s + q)[0] == s[0];
    }
  }

  /** `strip()` ignores whitespace added around the text. */
  lemma StripPadded(p: string, s: string, q: string)
    requires AllSpace(p) && AllSpace(q)
    ensures Strip(p + s + q) == Strip(s)
  {
    assert p + s + q == p + (s + q);
    TrimLeftPad(p, s + q);
    TrimLeftBeforeSpace(s, q);
    if TrimLeft(s) != [] {
      TrimRightPad(TrimLeft(s), q);
    }
  }

  function LowerChar(c: char): char {
    if 'A' <= c <= 'Z' then (c as int + 32) as char else c
  }

  /** `s.lower()` on ASCII letters. */
  function Lower(s: string): (r: string)
    ensures |r| == |s|
  {
    seq(|s|, k requires 0 <= k < |s| => LowerChar(s[k]))
  }

  /** Lower-casing twice is lower-casing once. */
  lemma LowerIdempotent(s: string)
    ensures Lower(Lower(s)) == Lower(s)
  {
    forall k | 0 <= k < |s| ensures Lower(Lower(s))[k] == Lower(s)[k] {
      var c := s[k];
      assert LowerChar(LowerChar(c)) == LowerChar(c);
    }
  }

  /** Lower-casing keeps whitespace and drops none of the rest. */
  lemma LowerKeepsSpace(s: string)
    ensures forall k :: 0 <= k < |s| ==> (IsSpace(Lower(s)[k]) <==> IsSpace(s[k]))
  {
  }

  /** `s.lower().lstrip() == s.lstrip().lower()`. */
  lemma {:induction false} TrimLeftLower(s: string)
    ensures TrimLeft(Lower(s)) == Lower(TrimLeft(s))
    decreases |s|
  {
    LowerKeepsSpace(s);
    if s != [] && IsSpace(s[0]) {
      assert Lower(s)[1..] == Lower(s[1..]);
      TrimLeftLower(s[1..]);
    }
  }

  /** `s.lower().rstrip() == s.rstrip().lower()`. */
  lemma {:induction false} TrimRightLower(s: string)
    ensures TrimRight(Lower(s)) == Lower(TrimRight(s))
    decreases |s|
  {
    LowerKeepsSpace(s);
    if s != [] && IsSpace(s[|s| - 1]) {
      assert Lower(s)[..|s| - 1] == Lower(s[..|s| - 1]);
      TrimRightLower(s[..|s| - 1]);
    }
  }

  /** Stripping and lower-casing commute. */
  lemma StripLower(s: string)
    ensures Strip(Lower(s)) == Lower(Strip(s))
  {
    TrimLeftLower(s);
    TrimRightLower(TrimLeft(s));
  }

  /** `sub in s`. */
  predicate Contains(s: string, sub: string) {
    exists i | 0 <= i <= |s| - |sub| :: OccursAt(s, sub, i)
  }

  /** `sub` occurs in `s` starting at offset `i`. */
  predicate OccursAt(s: string, sub: string, i: int) {
    0 <= i && i + |sub| <= |s| && s[i..i + |sub|] == sub
  }

  /** A witness of `sub in s`: `sub` occurs at offset `i`, character by character. */
  lemma ContainsAt(s: string, sub: string, i: nat)
    requires i + |sub| <= |s| && forall k :: 0 <= k < |sub| ==> s[i + k] == sub[k]
    ensures Contains(s, sub)
  {
    assert s[i..i + |sub|] == sub;
    assert OccursAt(s, sub, i);
  }

  /** If some character of `sub` never occurs in `s`, then `sub` is not in `s`. */
  lemma AbsentChar(s: string, sub: string, j: nat)
    requires j < |sub| && sub[j] !in s
    ensures !Contains(s, sub)
  {
    forall i | 0 <= i <= |s| - |sub| ensures !OccursAt(s, sub, i) {
      assert s[i..i + |sub|][j] == s[i + j];
    }
  }

  /** `sep.join(xs)`. */
  function Join(xs: seq<string>, sep: string): string
    decreases |xs|
  {
    if xs == [] then ""
    else if |xs| == 1 then xs[0]
    else xs[0] + sep + Join(xs[1..], sep)
  }

  /** `s.split(sep)` for a non-empty separator: cut at every occurrence of `sep`,
      scanning from the left and never letting two occurrences overlap. */
  function Split(s: string, sep: string): (r: seq<string>)
    requires sep != []
    ensures |r| >= 1
    decreases |s|
  {
    if |s| < |sep| then [s]
    else if s[..|sep|] == sep then [""] + Split(s[|sep|..], sep)
    else
      var rest := Split(s[1..], sep);
      [[s[0]] + rest[0]] + rest[1..]
  }

  /** Text in which the separator's first character never occurs. */
  predicate Avoids(s: string, sep: string)
    requires sep != []
  {
    forall k :: 0 <= k < |s| ==> s[k] != sep[0]
  }

  /** Text in which the separator does not occur is the one piece of its split. */
  lemma {:induction false} SplitNoSeparator(s: string, sep: string)
    requires sep != [] && !Contains(s, sep)
    ensures Split(s, sep) == [s]
    decreases |s|
  {
    if |s| >= |sep| {
      assert !OccursAt(s, sep, 0);
      forall i | 0 <= i <= |s[1..]| - |sep| ensures !OccursAt(s[1..], sep, i) {
        assert s[1..][i..i + |sep|] == s[i + 1..i + 1 + |sep|];
        assert !OccursAt(s, sep, i + 1);
      }
      SplitNoSeparator(s[1..], sep);
      assert [s[0]] + s[1..] == s;
    }
  }

  /** Splitting `s + sep + t` cuts at the separator right after `s`. */
  lemma {:induction false} SplitAfterPiece(s: string, sep: string, t: string)
    requires sep != [] && Avoids(s, sep)
    ensures Split(s + sep + t, sep) == [s] + Split(t, sep)
    decreases |s|
  {
    var w := s + sep + t;
    if s == [] {
      assert w[..|sep|] == sep && w[|sep|..] == t;
    } else {
      assert w[..|sep|][0] != sep[0];
      assert w[1..] == s[1..] + sep + t;
      SplitAfterPiece(s[1..], sep, t);
      assert [s[0]] + s[1..] == s;
    }
  }

  /** `sep.join(xs).split(sep) == xs` when no piece contains the separator's first
      character and there is at least one piece. */
  lemma {:induction false} SplitJoin(xs: seq<string>, sep: string)
    requires sep != [] && xs != []
    requires forall k :: 0 <= k < |xs| ==> Avoids(xs[k], sep)
    ensures Split(Join(xs, sep), sep) == xs
    decreases |xs|
  {
    if |xs| == 1 {
      AbsentChar(xs[0], sep, 0);
      SplitNoSeparator(xs[0], sep);
    } else {
      SplitAfterPiece(xs[0], sep, Join(xs[1..], sep));
      SplitJoin(xs[1..], sep);
    }
  }

  /** Concatenation is associative (stated generically, where the solver proves it
      cheaply). */
  lemma AppendAssoc<T>(a: seq<T>, b: seq<T>, c: seq<T>)
    ensures a + (b + c) == (a + b) + c
    ensures a + [] == a && [] + a == a
  {
  }

  /** Head and tail of a concatenation whose first part is not empty. */
  lemma AppendTail<T>(a: seq<T>, b: seq<T>)
    requires a != []
    ensures (a + b)[0] == a[0] && (a + b)[1..] == a[1..] + b
    ensures [a[0]] + a[1..] == a
  {
  }

  /** Everything but the last element of a concatenation whose second part is not empty. */
  lemma AppendFront<T>(a: seq<T>, b: seq<T>)
    requires b != []
    ensures (a + b)[|a + b| - 1] == b[|b| - 1] && (a + b)[..|a + b| - 1] == a + b[..|b| - 1]
  {
  }

  /** Putting one element in front of a short display. */
  lemma ConsDisplay<T>(a: T, b: T, c: T, d: T, e: T)
    ensures [a] + [] == [a] && [a] + [b] == [a, b] && [a] + [b, c] == [a, b, c]
    ensures [a] + [b, c, d] == [a, b, c, d] && [a] + [b, c, d, e] == [a, b, c, d, e]
  {
  }

  /** Growing a prefix by one element, and the prefix that is the whole sequence. */
  lemma PrefixStep<T>(xs: seq<T>, i: nat)
    requires i < |xs|
    ensures xs[..i + 1][..i] == xs[..i] && xs[..i + 1][i] == xs[i]
    ensures xs[..i + 1] == xs[..i] + [xs[i]]
    ensures xs[..|xs|] == xs
  {
  }

  function Min(a: int, b: int): int {
    if a <= b then a else b
  }

  /** The slice `s[:n]`. */
  function Head(s: string, n: nat): (r: string)
    ensures |r| == Min(n, |s|) && r == s[..|r|]
  {
    if n <= |s| then s[..n] else s
  }
}
