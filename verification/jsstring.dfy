/**
 The two JavaScript string operations the order form relies on: `String.prototype.trim`
 (applied to an edited value before its inline validation) and `length`, which counts
 UTF-16 code units and is what yup's `min` and `max` string rules compare against.
 */
module JsString {

  /** True of the characters `trim` removes: the WhiteSpace and LineTerminator
      code points of the ECMAScript language specification (ECMA-262). */
  predicate IsWhiteSpace(c: char) {
    || c == '\t' || c == '\U{000B}' || c == '\U{000C}' || c == ' ' || c == '\U{00A0}' || c == '\U{FEFF}'
    || c == '\U{1680}' || ('\U{2000}' <= c <= '\U{200A}') || c == '\U{202F}' || c == '\U{205F}' || c == '\U{3000}'
    || c == '\n' || c == '\r' || c == '\U{2028}' || c == '\U{2029}'
  }

  predicate AllWhiteSpace(s: string) {
    forall i :: 0 <= i < |s| ==> IsWhiteSpace(s[i])
  }

  /** A string `trim` leaves alone: empty, or neither end is white space. */
  predicate Unpadded(s: string) {
    |s| == 0 || (!IsWhiteSpace(s[0]) && !IsWhiteSpace(s[|s| - 1]))
  }

  /** `r` sits in `s` at offset `i` with nothing but white space around it. */
  predicate PaddedAt(s: string, r: string, i: nat) {
    && i + |r| <= |s|
    && s[i..i + |r|] == r
    && AllWhiteSpace(s[..i])
    && AllWhiteSpace(s[i + |r|..])
  }

  /** `r` is what is left of `s` once all leading and trailing white space is gone. */
  ghost predicate IsTrimOf(r: string, s: string) {
    Unpadded(r) && exists i: nat :: PaddedAt(s, r, i)
  }

  /** `s` without its leading white space. */
  function TrimStart(s: string): string {
    if |s| > 0 && IsWhiteSpace(s[0]) then TrimStart(s[1..]) else s
  }

  /** `s` without its trailing white space. */
  function TrimEnd(s: string): string {
    if |s| > 0 && IsWhiteSpace(s[|s| - 1]) then TrimEnd(s[..|s| - 1]) else s
  }

  lemma AllWhiteSpaceConcat(a: string, b: string)
    ensures AllWhiteSpace(a + b) <==> AllWhiteSpace(a) && AllWhiteSpace(b)
  {
    if AllWhiteSpace(a) && AllWhiteSpace(b) {
      forall i | 0 <= i < |a + b| ensures IsWhiteSpace((a + b)[i]) {
        if i < |a| { assert (a + b)[i] == a[i]; } else { assert (a + b)[i] == b[i - |a|]; }
      }
    }
    if AllWhiteSpace(a + b) {
      forall i | 0 <= i < |a| ensures IsWhiteSpace(a[i]) { assert (a + b)[i] == a[i]; }
      forall i | 0 <= i < |b| ensures IsWhiteSpace(b[i]) { assert (a + b)[|a| + i] == b[i]; }
    }
  }

  /** `TrimStart` drops a white-space prefix and stops at the first other character. */
  lemma {:induction false} TrimStartSpec(s: string)
    ensures var r := TrimStart(s);
      && |r| <= |s| && r == s[|s| - |r|..]
      && AllWhiteSpace(s[..|s| - |r|])
      && (|r| > 0 ==> !IsWhiteSpace(r[0]))
  {
    if |s| > 0 && IsWhiteSpace(s[0]) {
      var t := s[1..];
      TrimStartSpec(t);
      var r := TrimStart(t);
      assert TrimStart(s) == r;
      var k := |t| - |r|;
      assert s[|s| - |r|..] == t[k..];
      assert s[..|s| - |r|] == [s[0]] + t[..k];
      AllWhiteSpaceConcat([s[0]], t[..k]);
    } else {
      assert TrimStart(s) == s;
      assert s[..0] == [];
    }
  }

  /** `TrimEnd` drops a white-space suffix and stops at the last other character. */
  lemma {:induction false} TrimEndSpec(s: string)
    ensures var r := TrimEnd(s);
      && |r| <= |s| && r == s[..|r|]
      && AllWhiteSpace(s[|r|..])
      && (|r| > 0 ==> !IsWhiteSpace(r[|r| - 1]))
  {
    if |s| > 0 && IsWhiteSpace(s[|s| - 1]) {
      var t := s[..|s| - 1];
      TrimEndSpec(t);
      var r := TrimEnd(t);
      assert TrimEnd(s) == r;
      assert s[..|r|] == t[..|r|];
      assert s[|r|..] == t[|r|..] + [s[|s| - 1]];
      AllWhiteSpaceConcat(t[|r|..], [s[|s| - 1]]);
    } else {
      assert TrimEnd(s) == s;
      assert s[|s|..] == [];
    }
  }

  /** `String.prototype.trim`. */
  function Trim(s: string): string {
    TrimEnd(TrimStart(s))
  }

  /** `Trim` removes exactly the white space at both ends. */
  lemma TrimSpec(s: string)
    ensures IsTrimOf(Trim(s), s)
  {
    var t := TrimStart(s);
    TrimStartSpec(s);
    var r := TrimEnd(t);
    TrimEndSpec(t);
    var i := |s| - |t|;
    assert t == s[i..];
    assert s[i..i + |r|] == r by {
      assert r == t[..|r|];
    }
    assert s[i + |r|..] == t[|r|..];
    assert PaddedAt(s, r, i);
  }

  /** The white space around a string is determined by the string: `IsTrimOf` has at most
      one solution, so `Trim` is the only function meeting its contract. */
  lemma TrimOfIsUnique(s: string, r1: string, r2: string)
    requires IsTrimOf(r1, s) && IsTrimOf(r2, s)
    ensures r1 == r2
  {
    var i1: nat :| PaddedAt(s, r1, i1);
    var i2: nat :| PaddedAt(s, r2, i2);
    if |r1| > 0 { PaddedWithin(s, r2, i2, r1, i1); }
    if |r2| > 0 { PaddedWithin(s, r1, i1, r2, i2); }
    if |r1| > 0 && |r2| > 0 {
      assert r1 == s[i1..i1 + |r1|] == r2;
    }
  }

  /** A string without white space at its ends that sits padded in `s` lies inside
      the span of any other string padded in `s`. */
  lemma PaddedWithin(s: string, r: string, i: nat, q: string, j: nat)
    requires PaddedAt(s, r, i) && PaddedAt(s, q, j) && Unpadded(q) && |q| > 0
    ensures i <= j && j + |q| <= i + |r|
  {
    assert s[j] == q[0] by { assert s[j..j + |q|][0] == s[j]; }
    assert s[j + |q| - 1] == q[|q| - 1] by { assert s[j..j + |q|][|q| - 1] == s[j + |q| - 1]; }
  }

  /** Trimming a string wrapped in white space gives back the string. */
  lemma TrimPadded(left: string, core: string, right: string)
    requires AllWhiteSpace(left) && AllWhiteSpace(right) && Unpadded(core)
    ensures Trim(left + core + right) == core
  {
    var s := left + core + right;
    assert s[|left|..|left| + |core|] == core && s[..|left|] == left && s[|left| + |core|..] == right;
    assert PaddedAt(s, core, |left|);
    TrimSpec(s);
    TrimOfIsUnique(s, Trim(s), core);
  }

  /** Trimming twice is trimming once. */
  lemma TrimIdempotent(s: string)
    ensures Trim(Trim(s)) == Trim(s)
  {
    TrimSpec(s);
    TrimOfUnpadded(Trim(s));
  }

  /** `trim` changes exactly the strings that have white space at an end. */
  lemma TrimOfUnpadded(s: string)
    ensures Trim(s) == s <==> Unpadded(s)
  {
    TrimSpec(s);
    if Unpadded(s) {
      assert PaddedAt(s, s, 0);
      TrimOfIsUnique(s, Trim(s), s);
    }
  }

  /** The number of UTF-16 code units of `s`, JavaScript's `s.length`: a code point
      beyond the Basic Multilingual Plane takes a surrogate pair. */
  function Utf16Length(s: string): (n: nat)
    ensures |s| <= n <= 2 * |s|
  {
    if |s| == 0 then 0
    else (if s[0] <= '\U{FFFF}' then 1 else 2) + Utf16Length(s[1..])
  }

  /** `length` counts characters exactly when none lies beyond the Basic Multilingual Plane. */
  lemma {:induction false} Utf16LengthOfBmp(s: string)
    ensures Utf16Length(s) == |s| <==> forall i :: 0 <= i < |s| ==> s[i] <= '\U{FFFF}'
  {
    if |s| > 0 {
      Utf16LengthOfBmp(s[1..]);
      assert forall i :: 1 <= i < |s| ==> s[i] == s[1..][i - 1];
    }
  }

  /** `length` adds up over concatenation. */
  lemma {:induction false} Utf16LengthConcat(a: string, b: string)
    ensures Utf16Length(a + b) == Utf16Length(a) + Utf16Length(b)
  {
    if |a| > 0 {
      assert (a + b)[1..] == a[1..] + b;
      Utf16LengthConcat(a[1..], b);
    } else {
      assert a + b == b;
    }
  }
}
