/**
 The JavaScript string operations the user directory relies on, over `seq<char>`:
 the relational `<` on strings, `includes`, `trim` and `toLowerCase`.
 */
module Strings {

  /** JavaScript `a < b` on strings: lexicographic order on characters, a proper prefix
      being smaller than the longer string. */
  predicate StrLess(a: string, b: string)
    decreases |a|
  {
    if |a| == 0 then |b| > 0
    else if |b| == 0 then false
    else if a[0] < b[0] then true
    else if b[0] < a[0] then false
    else StrLess(a[1..], b[1..])
  }

  lemma {:induction false} StrLessIrreflexive(a: string)
    ensures !StrLess(a, a)
    decreases |a|
  {
    if |a| > 0 {
      StrLessIrreflexive(a[1..]);
    }
  }

  lemma {:induction false} StrLessAsymmetric(a: string, b: string)
    ensures StrLess(a, b) ==> !StrLess(b, a)
    decreases |a|
  {
    if |a| > 0 && |b| > 0 && a[0] == b[0] {
      StrLessAsymmetric(a[1..], b[1..]);
    }
  }

  lemma {:induction false} StrLessTransitive(a: string, b: string, c: string)
    ensures StrLess(a, b) && StrLess(b, c) ==> StrLess(a, c)
    decreases |a|
  {
    if |a| > 0 && |b| > 0 && |c| > 0 && a[0] == b[0] && b[0] == c[0] {
      StrLessTransitive(a[1..], b[1..], c[1..]);
    }
  }

  /** Two different strings are always ordered one way or the other. */
  lemma {:induction false} StrLessTotal(a: string, b: string)
    ensures a == b || StrLess(a, b) || StrLess(b, a)
    decreases |a|
  {
    if |a| > 0 && |b| > 0 && a[0] == b[0] {
      StrLessTotal(a[1..], b[1..]);
      if a[1..] == b[1..] {
        assert a == [a[0]] + a[1..] && b == [b[0]] + b[1..];
      }
    }
  }

  /** `t` occurs in `s` starting at position `i`. */
  predicate OccursAt(s: string, t: string, i: int)
  {
    0 <= i && i + |t| <= |s| && s[i..i + |t|] == t
  }

  /** JavaScript `s.includes(t)`, scanning `s` from the left. */
  predicate Includes(s: string, t: string)
    decreases |s|
  {
    if t <= s then true
    else if |s| == 0 then false
    else Includes(s[1..], t)
  }

  /** `includes` holds exactly when `t` occurs somewhere in `s`. */
  lemma {:induction false} IncludesIffOccurs(s: string, t: string)
    ensures Includes(s, t) <==> exists i :: OccursAt(s, t, i)
    decreases |s|
  {
    if t <= s {
      assert OccursAt(s, t, 0);
    } else if |s| == 0 {
    } else {
      IncludesIffOccurs(s[1..], t);
      if exists i :: OccursAt(s[1..], t, i) {
        var i :| OccursAt(s[1..], t, i);
        assert s[i + 1..i + 1 + |t|] == s[1..][i..i + |t|];
        assert OccursAt(s, t, i + 1);
      }
      if exists i :: OccursAt(s, t, i) {
        var i :| OccursAt(s, t, i);
        if i > 0 {
          assert s[1..][i - 1..i - 1 + |t|] == s[i..i + |t|];
          assert OccursAt(s[1..], t, i - 1);
        }
      }
    }
  }

  /** A non-empty string is only included where its first character occurs. */
  lemma IncludesNeedsFirstChar(s: string, t: string)
    requires |t| > 0
    ensures Includes(s, t) ==> t[0] in s
  {
    IncludesIffOccurs(s, t);
    if Includes(s, t) {
      var i :| OccursAt(s, t, i);
      assert s[i] == s[i..i + |t|][0];
    }
  }

  /** The characters ECMAScript's `trim` removes: the WhiteSpace and LineTerminator
      code points of section 12.2 and 12.3 of ECMA-262. */
  predicate IsWhitespace(c: char)
  {
    var n := c as int;
    || n == 0x0009 || n == 0x000A || n == 0x000B || n == 0x000C || n == 0x000D
    || n == 0x0020 || n == 0x00A0 || n == 0x1680
    || (0x2000 <= n <= 0x200A)
    || n == 0x2028 || n == 0x2029 || n == 0x202F || n == 0x205F
    || n == 0x3000 || n == 0xFEFF
  }

  /** Every character of `s` is whitespace (vacuously true of ""). */
  predicate AllWhitespace(s: string)
  {
    forall i :: 0 <= i < |s| ==> IsWhitespace(s[i])
  }

  /** JavaScript `trimStart`: drops the leading whitespace. */
  function TrimStart(s: string): (r: string)
    ensures |r| <= |s| && r == s[|s| - |r|..]
    ensures forall i :: 0 <= i < |s| - |r| ==> IsWhitespace(s[i])
    ensures |r| == 0 || !IsWhitespace(r[0])
    decreases |s|
  {
    if |s| > 0 && IsWhitespace(s[0]) then TrimStart(s[1..]) else s
  }

  /** JavaScript `trimEnd`: drops the trailing whitespace. */
  function TrimEnd(s: string): (r: string)
    ensures |r| <= |s| && r == s[..|r|]
    ensures forall i :: |r| <= i < |s| ==> IsWhitespace(s[i])
    ensures |r| == 0 || !IsWhitespace(r[|r| - 1])
    decreases |s|
  {
    if |s| > 0 && IsWhitespace(s[|s| - 1]) then TrimEnd(s[..|s| - 1]) else s
  }

  /** JavaScript `trim`. */
  function Trim(s: string): string
  {
    TrimEnd(TrimStart(s))
  }

  /** `s.trim()` is the empty string exactly when `s` is made of whitespace only. */
  lemma TrimEmptyIffAllWhitespace(s: string)
    ensures Trim(s) == "" <==> AllWhitespace(s)
  {

  }

  /** JavaScript `toLowerCase`, restricted to the ASCII letters. */
  function LowerChar(c: char): (r: char)
  {
    if 'A' <= c <= 'Z' then (c as int + 32) as char else c
  }

  function Lower(s: string): (r: string)
    ensures |r| == |s|
    ensures forall i :: 0 <= i < |s| ==> !('A' <= r[i] <= 'Z')
    ensures forall i :: 0 <= i < |s| && !('A' <= s[i] <= 'Z') ==> r[i] == s[i]
    ensures forall i :: 0 <= i < |s| && 'A' <= s[i] <= 'Z' ==> r[i] as int == s[i] as int + 32
  {
    seq(|s|, i requires 0 <= i < |s| => LowerChar(s[i]))
  }

  /** Lowercasing a lowercased string changes nothing. */
  lemma LowerIdempotent(s: string)
    ensures Lower(Lower(s)) == Lower(s)
  {
  }

  /** Lowercasing never turns a non-whitespace character into whitespace or back. */
  lemma LowerKeepsWhitespace(s: string)
    ensures AllWhitespace(Lower(s)) <==> AllWhitespace(s)
  {
    assert forall i :: 0 <= i < |s| ==> (IsWhitespace(Lower(s)[i]) <==> IsWhitespace(s[i]));
  }
}
