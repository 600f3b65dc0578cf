/** Rust string semantics the commands rely on: `str::len` counts UTF-8 bytes,
    `&s[..n]` slices at a byte offset and panics off a character boundary, and
    `trim` strips Unicode white space from both ends. A Rust `String` is a
    `string` here, i.e. a sequence of Unicode scalar values. */
module Text {
  import opened Base

  /** `char::is_whitespace`: the Unicode White_Space property. */
  predicate IsWhitespace(c: char) {
    var n := c as int;
    || 0x09 <= n <= 0x0D
    || n == 0x20 || n == 0x85 || n == 0xA0 || n == 0x1680
    || 0x2000 <= n <= 0x200A
    || n == 0x2028 || n == 0x2029 || n == 0x202F || n == 0x205F || n == 0x3000
  }

  function TrimStart(s: string): string {
    if s != [] && IsWhitespace(s[0]) then TrimStart(s[1..]) else s
  }

  function TrimEnd(s: string): string {
    if s != [] && IsWhitespace(s[|s| - 1]) then TrimEnd(s[..|s| - 1]) else s
  }

  /** `str::trim`. */
  function Trim(s: string): string {
    TrimEnd(TrimStart(s))
  }

  ghost predicate AllWhitespace(s: string) {
    forall i :: 0 <= i < |s| ==> IsWhitespace(s[i])
  }

  /** The validators' `s.trim().is_empty()` holds exactly for strings made of white space only. */
  lemma {:induction false} TrimEmptyIffAllWhitespace(s: string)
    ensures Trim(s) == [] <==> AllWhitespace(s)
  {
    TrimStartEmpty(s);
    if TrimStart(s) != [] {
      TrimStartHead(s);
      TrimEndKeepsHead(TrimStart(s));
    }
  }

  lemma {:induction false} TrimStartEmpty(s: string)
    ensures TrimStart(s) == [] <==> AllWhitespace(s)
  {
    if s != [] && IsWhitespace(s[0]) {
      TrimStartEmpty(s[1..]);
      if AllWhitespace(s[1..]) {
        forall i | 0 <= i < |s| ensures IsWhitespace(s[i]) {
          if i > 0 { assert s[i] == s[1..][i - 1]; }
        }
      } else {
        var j :| 0 <= j < |s[1..]| && !IsWhitespace(s[1..][j]);
        assert s[j + 1] == s[1..][j];
      }
    }
  }

  lemma {:induction false} TrimStartHead(s: string)
    requires TrimStart(s) != []
    ensures !IsWhitespace(TrimStart(s)[0])
  {
    if s != [] && IsWhitespace(s[0]) {
      TrimStartHead(s[1..]);
    }
  }

  lemma {:induction false} TrimEndKeepsHead(t: string)
    requires t != [] && !IsWhitespace(t[0])
    ensures TrimEnd(t) != []
  {
    if IsWhitespace(t[|t| - 1]) {
      var u := t[..|t| - 1];
      assert u != [] && u[0] == t[0];
      TrimEndKeepsHead(u);
    }
  }

  /** Number of bytes in the UTF-8 encoding of `c`. */
  function Utf8Width(c: char): nat {
    if c as int < 0x80 then 1
    else if c as int < 0x800 then 2
    else if c as int < 0x1_0000 then 3
    else 4
  }

  /** `str::len`: the length of the UTF-8 encoding in bytes. */
  function ByteLen(s: string): nat {
    if s == [] then 0 else Utf8Width(s[0]) + ByteLen(s[1..])
  }

  lemma {:induction false} ByteLenAppend(a: string, b: string)
    ensures ByteLen(a + b) == ByteLen(a) + ByteLen(b)
  {
    if a == [] {
      assert a + b == b;
    } else {
      assert (a + b)[1..] == a[1..] + b;
      ByteLenAppend(a[1..], b);
    }
  }

  /** One more character adds its own width. */
  lemma ByteLenSnoc(s: string, c: char)
    ensures ByteLen(s + [c]) == ByteLen(s) + Utf8Width(c)
  {
    ByteLenAppend(s, [c]);
    assert [c][1..] == [];
  }

  /** Text made of ASCII characters only has one byte per character. */
  lemma {:induction false} ByteLenAscii(s: string)
    requires forall i :: 0 <= i < |s| ==> s[i] as int < 0x80
    ensures ByteLen(s) == |s|
  {
    if s != [] {
      assert forall i :: 0 <= i < |s[1..]| ==> s[1..][i] == s[i + 1];
      ByteLenAscii(s[1..]);
    }
  }

  /** The byte length of a prefix grows with the prefix. */
  lemma {:induction false} ByteLenPrefixMonotone(s: string, j: nat, k: nat)
    requires j <= k <= |s|
    ensures ByteLen(s[..j]) <= ByteLen(s[..k])
  {
    assert s[..k] == s[..j] + s[j..k];
    ByteLenAppend(s[..j], s[j..k]);
  }

  lemma PrefixTail(s: string, k: nat)
    requires 0 < k <= |s|
    ensures s[..k] != [] && s[..k][0] == s[0] && s[..k][1..] == s[1..][..k - 1]
  {
  }

  /** The character index at which byte offset `n` of `s` falls, when `n` is a
      character boundary; `None` when `n` lies inside a character or past the end. */
  function BoundaryIndex(s: string, n: nat): (r: Option<nat>)
    ensures r.Some? ==> r.value <= |s| && ByteLen(s[..r.value]) == n
    ensures r.None? ==> forall k :: 0 <= k <= |s| ==> ByteLen(s[..k]) != n
  {
    if n == 0 then
      assert s[..0] == [];
      Some(0)
    else if s == [] then
      None
    else if Utf8Width(s[0]) > n then
      assert forall k :: 0 < k <= |s| ==> ByteLen(s[..k]) >= Utf8Width(s[0]) by {
        forall k | 0 < k <= |s| ensures ByteLen(s[..k]) >= Utf8Width(s[0]) {
          PrefixTail(s, k);
        }
      }
      None
    else
      var rest := BoundaryIndex(s[1..], n - Utf8Width(s[0]));
      if rest.Some? then
        PrefixTail(s, rest.value + 1);
        Some(rest.value + 1)
      else
        assert forall k :: 0 < k <= |s| ==> ByteLen(s[..k]) != n by {
          forall k | 0 < k <= |s| ensures ByteLen(s[..k]) != n {
            PrefixTail(s, k);
          }
        }
        None
  }

  /** Rust's `&s[..n]`: the prefix of `n` bytes, or `None` where Rust panics
      because `n` is not a character boundary of `s`. */
  function SliceTo(s: string, n: nat): (r: Option<string>)
    ensures r.Some? <==> exists k :: 0 <= k <= |s| && ByteLen(s[..k]) == n
    ensures r.Some? ==> ByteLen(r.value) == n && r.value <= s
  {
    match BoundaryIndex(s, n)
    case Some(k) => Some(s[..k])
    case None => None
  }

  /** The number of whole characters of `s` that fit in `n` bytes: the largest
      character boundary at or below byte offset `n`. */
  function FloorBoundary(s: string, n: nat): (k: nat)
    ensures k <= |s| && ByteLen(s[..k]) <= n
    ensures k < |s| ==> ByteLen(s[..k + 1]) > n
  {
    if s == [] || Utf8Width(s[0]) > n then
      assert s[..0] == [];
      assert s != [] ==> ByteLen(s[..1]) > n by {
        if s != [] { PrefixTail(s, 1); }
      }
      0
    else
      var k := FloorBoundary(s[1..], n - Utf8Width(s[0]));
      PrefixTail(s, k + 1);
      assert k + 1 < |s| ==> ByteLen(s[..k + 2]) > n by {
        if k + 1 < |s| { PrefixTail(s, k + 2); }
      }
      k + 1
  }

  /** `str::starts_with`. */
  predicate StartsWith(s: string, prefix: string) {
    |prefix| <= |s| && s[..|prefix|] == prefix
  }

  /** `str::ends_with`. */
  predicate EndsWith(s: string, suffix: string) {
    |suffix| <= |s| && s[|s| - |suffix|..] == suffix
  }

  /** `str::contains` with a string needle. */
  predicate Contains(s: string, needle: string) {
    StartsWith(s, needle) || (s != [] && Contains(s[1..], needle))
  }

  /** `needle` occurs in `s` starting at character offset `i`. */
  ghost predicate OccursAt(s: string, needle: string, i: int) {
    0 <= i <= |s| - |needle| && s[i..i + |needle|] == needle
  }

  /** `Contains` holds exactly when the needle occurs at some offset. */
  lemma {:induction false} ContainsIffOccurs(s: string, needle: string)
    ensures Contains(s, needle) <==> exists i :: OccursAt(s, needle, i)
  {
    if StartsWith(s, needle) {
      assert OccursAt(s, needle, 0);
    } else if s != [] {
      ContainsIffOccurs(s[1..], needle);
      assert !OccursAt(s, needle, 0);
      forall i | 0 <= i
        ensures OccursAt(s[1..], needle, i) <==> OccursAt(s, needle, i + 1)
      {
        if i <= |s| - 1 - |needle| {
          assert s[1..][i..i + |needle|] == s[i + 1..i + 1 + |needle|];
        }
      }
      if exists i :: OccursAt(s, needle, i) {
        var i :| OccursAt(s, needle, i);
        assert OccursAt(s[1..], needle, i - 1);
      }
    }
  }
}
