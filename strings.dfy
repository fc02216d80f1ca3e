/**
 * The JavaScript string operations that the server and client rely on, written out over
 * `seq<char>`: `trim`, `startsWith`, `split` on one character, ASCII case
 * folding (the `i` option of a literal `$regex`) and substring search.
 */
module Strings {

  /** The characters `String.prototype.trim` removes: WhiteSpace and LineTerminator. */
  predicate IsJsSpace(c: char) {
    var n := c as int;
    (0x09 <= n <= 0x0D) || n == 0x20 || n == 0xA0 || n == 0x1680
    || (0x2000 <= n <= 0x200A) || n == 0x2028 || n == 0x2029 || n == 0x202F
    || n == 0x205F || n == 0x3000 || n == 0xFEFF
  }

  /** Neither end of `s` is a space character. */
  predicate IsTrimmed(s: string) {
    |s| == 0 || (!IsJsSpace(s[0]) && !IsJsSpace(s[|s| - 1]))
  }

  predicate IsBlank(s: string) {
    forall i :: 0 <= i < |s| ==> IsJsSpace(s[i])
  }

  function TrimStart(s: string): (r: string)
    ensures |r| <= |s|
    ensures r == s[|s| - |r|..]
    ensures |r| > 0 ==> !IsJsSpace(r[0])
    ensures forall i :: 0 <= i < |s| - |r| ==> IsJsSpace(s[i])
    decreases |s|
  {
    if |s| > 0 && IsJsSpace(s[0]) then TrimStart(s[1..]) else s
  }

  function TrimEnd(s: string): (r: string)
    ensures |r| <= |s|
    ensures r == s[..|r|]
    ensures |r| > 0 ==> !IsJsSpace(r[|r| - 1])
    ensures forall i :: |r| <= i < |s| ==> IsJsSpace(s[i])
    decreases |s|
  {
    if |s| > 0 && IsJsSpace(s[|s| - 1]) then TrimEnd(s[..|s| - 1]) else s
  }

  /** `s.trim()`. */
  function Trim(s: string): string {
    TrimEnd(TrimStart(s))
  }

  /** What `trim` returns has no space at either end and is a slice of its input. */
  lemma TrimIsTrimmed(s: string)
    ensures IsTrimmed(Trim(s))
    ensures |Trim(s)| <= |s|
    ensures OccursAt(s, Trim(s), |s| - |TrimStart(s)|)
  {
    var a := TrimStart(s);
    var r := TrimEnd(a);
    TrimEndKeepsStart(a);
    SliceOfSuffix(s, |s| - |a|, r);
  }

  /** Trimming the end of a string that starts with a non-space keeps that start. */
  lemma TrimEndKeepsStart(a: string)
    requires |a| > 0 ==> !IsJsSpace(a[0])
    ensures IsTrimmed(TrimEnd(a))
  {
    var r := TrimEnd(a);
    if |r| > 0 {
      assert r[0] == a[0];
    }
  }

  /** A prefix of the suffix `s[i..]` is the slice of `s` starting at `i`. */
  lemma SliceOfSuffix(s: string, i: nat, r: string)
    requires i <= |s| && |r| <= |s| - i && r == s[i..][..|r|]
    ensures OccursAt(s, r, i)
  {
    forall j | 0 <= j < |r|
      ensures s[i..i + |r|][j] == r[j]
    {
      assert r[j] == s[i..][j] == s[i + j];
    }
    assert s[i..i + |r|] == r;
  }

  /** A trimmed string is a fixed point of `trim`. */
  lemma TrimOfTrimmed(s: string)
    requires IsTrimmed(s)
    ensures Trim(s) == s
  {
  }

  /** `trim` is idempotent. */
  lemma TrimIdempotent(s: string)
    ensures Trim(Trim(s)) == Trim(s)
  {
    TrimIsTrimmed(s);
    TrimOfTrimmed(Trim(s));
  }

  /** `trim` yields the empty string exactly for strings made only of spaces. */
  lemma {:induction false} TrimEmptyIffBlank(s: string)
    ensures Trim(s) == "" <==> IsBlank(s)
  {
    var a := TrimStart(s);
    if a == "" {
      assert IsBlank(s);
    } else {
      assert !IsJsSpace(a[0]);
      assert a[0] == s[|s| - |a|];
      assert TrimEnd(a) != "";
    }
  }

  /** A character outside the Basic Multilingual Plane is a surrogate pair in UTF-16. */
  predicate IsAstral(c: char) {
    c as int > 0xFFFF
  }

  /**
   * JavaScript's `length`: UTF-16 code units, so an astral character counts
   * twice; it is at least the number of characters and at most twice it.
   */
  function JsLength(s: string): (r: nat)
    ensures |s| <= r <= 2 * |s|
    ensures r == 0 <==> s == []
    decreases |s|
  {
    if s == [] then 0 else (if IsAstral(s[0]) then 2 else 1) + JsLength(s[1..])
  }

  /** The JavaScript length is the character count exactly when no character is astral. */
  lemma {:induction false} JsLengthOfBmp(s: string)
    ensures JsLength(s) == |s| <==> forall i :: 0 <= i < |s| ==> !IsAstral(s[i])
    decreases |s|
  {
    if s != [] {
      JsLengthOfBmp(s[1..]);
      assert forall i :: 1 <= i < |s| ==> s[i] == s[1..][i - 1];
    }
  }

  predicate StartsWith(s: string, prefix: string) {
    |prefix| <= |s| && s[..|prefix|] == prefix
  }

  /** `s.split(sep)` for a one-character separator: never empty, no piece holds the separator. */
  function Split(s: string, sep: char): (r: seq<string>)
    ensures |r| >= 1
    ensures forall i :: 0 <= i < |r| ==> sep !in r[i]
    decreases |s|
  {
    if |s| == 0 then [""]
    else if s[0] == sep then [""] + Split(s[1..], sep)
    else
      var rest := Split(s[1..], sep);
      [[s[0]] + rest[0]] + rest[1..]
  }

  /** `parts.join(sep)`. */
  function Join(parts: seq<string>, sep: char): string
    requires |parts| >= 1
    decreases |parts|
  {
    if |parts| == 1 then parts[0] else parts[0] + [sep] + Join(parts[1..], sep)
  }

  /** Splitting loses nothing: joining the pieces back gives the input. */
  lemma {:induction false} JoinSplit(s: string, sep: char)
    ensures Join(Split(s, sep), sep) == s
    decreases |s|
  {
    if |s| == 0 {
    } else if s[0] == sep {
      JoinSplit(s[1..], sep);
      assert s == [sep] + s[1..];
    } else {
      JoinSplit(s[1..], sep);
      var rest := Split(s[1..], sep);
      if |rest| == 1 {
        assert s == [s[0]] + rest[0];
      } else {
        assert Join(rest, sep) == rest[0] + [sep] + Join(rest[1..], sep);
        assert s == [s[0]] + s[1..];
      }
    }
  }

  /** Joining pieces free of the separator and splitting again gives the pieces back. */
  lemma {:induction false} SplitJoin(parts: seq<string>, sep: char)
    requires |parts| >= 1
    requires forall i :: 0 <= i < |parts| ==> sep !in parts[i]
    ensures Split(Join(parts, sep), sep) == parts
    decreases |parts|
  {
    if |parts| == 1 {
      SplitWithoutSeparator(parts[0], sep);
    } else {
      SplitJoin(parts[1..], sep);
      SplitAfterPiece(parts[0], sep, Join(parts[1..], sep));
      assert parts == [parts[0]] + parts[1..];
    }
  }

  /** A string without the separator is a single piece. */
  lemma {:induction false} SplitWithoutSeparator(s: string, sep: char)
    requires sep !in s
    ensures Split(s, sep) == [s]
    decreases |s|
  {
    if |s| > 0 {
      SplitWithoutSeparator(s[1..], sep);
      assert s == [s[0]] + s[1..];
    }
  }

  /** The prefix of `s` up to, not including, the first `c`. */
  function TakeUntil(s: string, c: char): (r: string)
    ensures c !in r
    ensures StartsWith(s, r)
    ensures |r| < |s| ==> s[|r|] == c
    decreases |s|
  {
    if |s| == 0 || s[0] == c then "" else [s[0]] + TakeUntil(s[1..], c)
  }

  /** The first piece of a split is the text before the first separator. */
  lemma {:induction false} SplitHead(s: string, sep: char)
    ensures Split(s, sep)[0] == TakeUntil(s, sep)
    decreases |s|
  {
    if |s| > 0 && s[0] != sep {
      SplitHead(s[1..], sep);
    }
  }

  /** A piece without the separator followed by the separator splits off as the first piece. */
  lemma {:induction false} SplitAfterPiece(a: string, sep: char, b: string)
    requires sep !in a
    ensures Split(a + [sep] + b, sep) == [a] + Split(b, sep)
    decreases |a|
  {
    if |a| == 0 {
      assert a + [sep] + b == [sep] + b;
      assert ([sep] + b)[1..] == b;
    } else {
      var s := a + [sep] + b;
      assert s[0] == a[0] && s[1..] == a[1..] + [sep] + b;
      SplitAfterPiece(a[1..], sep, b);
      assert [a[0]] + a[1..] == a;
    }
  }

  function LowerChar(c: char): char {
    if 'A' <= c <= 'Z' then (c as int + 32) as char else c
  }

  function UpperChar(c: char): char {
    if 'a' <= c <= 'z' then (c as int - 32) as char else c
  }

  /** ASCII lower-casing, character by character. */
  function Lower(s: string): (r: string)
    ensures |r| == |s|
    ensures forall i :: 0 <= i < |s| ==> r[i] == LowerChar(s[i])
  {
    seq(|s|, i requires 0 <= i < |s| => LowerChar(s[i]))
  }

  function Upper(s: string): (r: string)
    ensures |r| == |s|
    ensures forall i :: 0 <= i < |s| ==> r[i] == UpperChar(s[i])
  {
    seq(|s|, i requires 0 <= i < |s| => UpperChar(s[i]))
  }

  /** Folding is blind to the case a string was written in. */
  lemma LowerOfUpper(s: string)
    ensures Lower(Upper(s)) == Lower(s)
  {
    forall i | 0 <= i < |s|
      ensures Lower(Upper(s))[i] == Lower(s)[i]
    {
      var c := s[i];
      if 'a' <= c <= 'z' {
        assert LowerChar(UpperChar(c)) == c;
      }
    }
  }

  /** `q` occurs in `s` starting at position `i`. */
  predicate OccursAt(s: string, q: string, i: int) {
    0 <= i <= |s| - |q| && s[i..i + |q|] == q
  }

  /** `q` occurs in `s` as a contiguous piece, scanning from the left. */
  predicate Contains(s: string, q: string)
    decreases |s|
  {
    StartsWith(s, q) || (|s| > 0 && Contains(s[1..], q))
  }

  /** The scan agrees with the textbook definition of a substring. */
  lemma {:induction false} ContainsIffSlice(s: string, q: string)
    ensures Contains(s, q) <==> exists i :: OccursAt(s, q, i)
    decreases |s|
  {
    if StartsWith(s, q) {
      assert OccursAt(s, q, 0);
    } else if |s| == 0 {
    } else {
      ContainsIffSlice(s[1..], q);
      if Contains(s[1..], q) {
        var i :| OccursAt(s[1..], q, i);
        forall j | 0 <= j < |q|
          ensures s[i + 1..i + 1 + |q|][j] == q[j]
        {
          assert s[i + 1 + j] == s[1..][i + j];
          assert s[1..][i..i + |q|][j] == q[j];
        }
        assert s[i + 1..i + 1 + |q|] == q;
        assert OccursAt(s, q, i + 1);
      } else {
        forall i | OccursAt(s, q, i)
          ensures OccursAt(s[1..], q, i - 1)
        {
          assert i >= 1;
          forall j | 0 <= j < |q|
            ensures s[1..][i - 1..i - 1 + |q|][j] == q[j]
          {
            assert s[1..][i - 1 + j] == s[i + j];
            assert s[i..i + |q|][j] == q[j];
          }
          assert s[1..][i - 1..i - 1 + |q|] == q;
        }
      }
    }
  }

  /** Case-insensitive substring test with ASCII case folding. */
  predicate ContainsIgnoreCase(s: string, q: string) {
    Contains(Lower(s), Lower(q))
  }
}
