/**
 * The string operations js/main.js relies on: searching for a character,
 * and whitespace as used by `String.prototype.trim` and the regular-expression
 * class `\s` (both use the same set, the ECMAScript WhiteSpace and
 * LineTerminator code points).
 */
module Text {
  import opened Wrappers

  /** The position of the first `c` in `s`, if any. */
  function IndexOf(s: string, c: char): (r: Option<nat>)
    ensures r.Some? ==> r.value < |s| && s[r.value] == c && forall k :: 0 <= k < r.value ==> s[k] != c
    ensures r.None? ==> forall k :: 0 <= k < |s| ==> s[k] != c
  {
    if s == [] then None
    else if s[0] == c then Some(0)
    else match IndexOf(s[1..], c)
      case None => None
      case Some(k) => Some(k + 1)
  }

  /** ECMAScript WhiteSpace (TAB, VT, FF, ZWNBSP and the Unicode Zs category)
      plus LineTerminator (LF, CR, LS, PS). */
  predicate IsSpace(c: char) {
    || c == '\t' || c == '\n' || c == '\U{0B}' || c == '\U{0C}' || c == '\r'
    || c == ' ' || c == '\U{A0}' || c == '\U{1680}'
    || ('\U{2000}' <= c <= '\U{200A}')
    || c == '\U{2028}' || c == '\U{2029}' || c == '\U{202F}' || c == '\U{205F}'
    || c == '\U{3000}' || c == '\U{FEFF}'
  }

  /** Every character of `s` is whitespace (this includes the empty string). */
  predicate AllSpace(s: string) {
    forall k :: 0 <= k < |s| ==> IsSpace(s[k])
  }

  /** Drops leading whitespace: the result is a suffix of `s` that is empty or
      starts with a non-space, and everything dropped is whitespace. */
  function TrimStart(s: string): (r: string)
    ensures |r| <= |s| && r == s[|s| - |r|..]
    ensures r != [] ==> !IsSpace(r[0])
    ensures forall k :: 0 <= k < |s| - |r| ==> IsSpace(s[k])
  {
    if s != [] && IsSpace(s[0]) then TrimStart(s[1..]) else s
  }

  /** Drops trailing whitespace: the result is a prefix of `s` that is empty or
      ends with a non-space, and everything dropped is whitespace. */
  function TrimEnd(s: string): (r: string)
    ensures |r| <= |s| && r == s[..|r|]
    ensures r != [] ==> !IsSpace(r[|r| - 1])
    ensures forall k :: |r| <= k < |s| ==> IsSpace(s[k])
  {
    if s != [] && IsSpace(s[|s| - 1]) then TrimEnd(s[..|s| - 1]) else s
  }

  /** `val.trim()`: what is left neither starts nor ends with whitespace
      (`TrimSlice` says where it sits in `s`). */
  function Trim(s: string): (r: string)
    ensures |r| <= |s|
    ensures r != [] ==> !IsSpace(r[0]) && !IsSpace(r[|r| - 1])
  {
    TrimEnd(TrimStart(s))
  }

  /** `!val.trim()`: the trimmed string is empty exactly when the whole value
      is whitespace. */
  lemma TrimEmptyIffAllSpace(s: string)
    ensures Trim(s) == [] <==> AllSpace(s)
  {
    var a, b := TrimSlice(s);
    if a < b {
      assert !IsSpace(s[a]);
    }
  }

  /** Where `Trim(s)` sits in `s`: it is `s[a..b]`, all of `s` outside
      `[a, b)` is whitespace, and when non-empty both its ends are not. */
  lemma TrimSlice(s: string) returns (a: nat, b: nat)
    ensures a <= b <= |s| && Trim(s) == s[a..b]
    ensures forall k :: 0 <= k < a ==> IsSpace(s[k])
    ensures forall k :: b <= k < |s| ==> IsSpace(s[k])
    ensures a < b ==> !IsSpace(s[a]) && !IsSpace(s[b - 1])
  {
    var t := TrimStart(s);
    var r := TrimEnd(t);
    a := |s| - |t|;
    b := a + |r|;
    assert t == s[a..] && |t| == |s| - a;
    assert forall k :: 0 <= k < a ==> IsSpace(s[k]);
    assert r == t[..|r|];
    assert t[..|r|] == s[a..b];
    forall k | b <= k < |s| ensures IsSpace(s[k]) {
      assert s[k] == t[k - a];
    }
    if a < b {
      assert r[0] == s[a] && r[|r| - 1] == s[b - 1];
    }
  }

  /** The number of UTF-16 code units of a character: two above U+FFFF. */
  function Utf16Width(c: char): nat {
    if c > '\U{FFFF}' then 2 else 1
  }

  /** JavaScript's `.length`: the string's size in UTF-16 code units, which is
      at least its number of characters and at most twice that. */
  function Utf16Length(s: string): (n: nat)
    ensures |s| <= n <= 2 * |s|
  {
    if s == [] then 0 else Utf16Width(s[0]) + Utf16Length(s[1..])
  }

  /** `.length` adds up over concatenation. */
  lemma {:induction false} Utf16LengthConcat(x: string, y: string)
    ensures Utf16Length(x + y) == Utf16Length(x) + Utf16Length(y)
  {
    if x == [] {
      assert x + y == y;
    } else {
      assert (x + y)[0] == x[0] && (x + y)[1..] == x[1..] + y;
      Utf16LengthConcat(x[1..], y);
    }
  }

  /** `s` has two non-space characters (possibly the same one) such that the
      text from the first to the second is at least `n` UTF-16 units long. */
  ghost predicate SpansAtLeast(s: string, n: nat) {
    exists i, j :: 0 <= i <= j < |s| && !IsSpace(s[i]) && !IsSpace(s[j]) && Utf16Length(s[i..j + 1]) >= n
  }

  /** For a positive bound `n`, `val.trim().length >= n` holds exactly when the
      value has non-space characters spanning at least `n` UTF-16 units. */
  lemma TrimLengthAtLeast(s: string, n: nat)
    requires n >= 1
    ensures Utf16Length(Trim(s)) >= n <==> SpansAtLeast(s, n)
  {
    var a, b := TrimSlice(s);
    if Utf16Length(Trim(s)) >= n {
      assert s[a..(b - 1) + 1] == Trim(s);
      assert 0 <= a <= b - 1 < |s| && !IsSpace(s[a]) && !IsSpace(s[b - 1]);
    }
    if SpansAtLeast(s, n) {
      var i, j :| 0 <= i <= j < |s| && !IsSpace(s[i]) && !IsSpace(s[j]) && Utf16Length(s[i..j + 1]) >= n;
      SpanInside(s, a, b, i, j);
    }
  }

  /** A span between two non-space characters lies inside the trimmed slice,
      so it is no longer than the trimmed value. */
  lemma SpanInside(s: string, a: nat, b: nat, i: nat, j: nat)
    requires a <= b <= |s| && i <= j < |s| && !IsSpace(s[i]) && !IsSpace(s[j])
    requires forall k :: 0 <= k < a ==> IsSpace(s[k])
    requires forall k :: b <= k < |s| ==> IsSpace(s[k])
    ensures a <= i && j < b
    ensures Utf16Length(s[i..j + 1]) <= Utf16Length(s[a..b])
  {
    assert s[a..b] == s[a..i] + s[i..j + 1] + s[j + 1..b];
    Utf16LengthConcat(s[a..i], s[i..j + 1]);
    Utf16LengthConcat(s[a..i] + s[i..j + 1], s[j + 1..b]);
  }
}
