/**
 * Byte-level view of Go strings as the stocks plugin uses them.
 *
 * A Go `string` is a sequence of bytes and `len` counts bytes. The two
 * regular expressions of the plugin, `\W+` and `[a-z]+`, match ASCII
 * classes only, and deleting every match is deleting every byte of the
 * class: a non-ASCII rune is a non-word rune and every byte of its UTF-8
 * encoding is at least 0x80, so it disappears whole either way.
 */
module Ascii {
  newtype byte = b: int | 0 <= b < 256

  type Bytes = seq<byte>

  /** '0' .. '9' */
  predicate IsDigit(b: byte) { 48 <= b <= 57 }

  /** 'A' .. 'Z' */
  predicate IsUpper(b: byte) { 65 <= b <= 90 }

  /** 'a' .. 'z', the class `[a-z]` */
  predicate IsLower(b: byte) { 97 <= b <= 122 }

  /** The class `\w` of RE2: `[0-9A-Za-z_]` ('_' is 95). */
  predicate IsWordByte(b: byte) { IsDigit(b) || IsUpper(b) || IsLower(b) || b == 95 }

  predicate AllWord(s: Bytes) { forall i :: 0 <= i < |s| ==> IsWordByte(s[i]) }

  predicate NoLower(s: Bytes) { forall i :: 0 <= i < |s| ==> !IsLower(s[i]) }

  /** The bytes that survive deleting every match of `[a-z]+`. */
  predicate NotLower(b: byte) { !IsLower(b) }

  /**
   * `ReplaceAllString(s, "")` for a regular expression that matches runs of
   * one byte class: keeps exactly the bytes outside the class, in order.
   */
  function Keep(s: Bytes, p: byte -> bool): (r: Bytes)
    ensures |r| <= |s|
    ensures forall i :: 0 <= i < |r| ==> p(r[i])
    ensures forall b :: b in r <==> b in s && p(b)
    ensures |r| == |s| <==> forall i :: 0 <= i < |s| ==> p(s[i])
    ensures (forall i :: 0 <= i < |s| ==> p(s[i])) ==> r == s
  {
    if s == [] then []
    else
      var rest := Keep(s[1..], p);
      assert (forall i :: 0 <= i < |s| ==> p(s[i])) <==>
             p(s[0]) && forall i :: 0 <= i < |s[1..]| ==> p(s[1..][i]);
      if p(s[0]) then [s[0]] + rest else rest
  }

  /** Each kept byte survives as often as it occurs; each deleted byte is gone. */
  lemma {:induction false} KeepCounts(s: Bytes, p: byte -> bool)
    ensures forall b :: multiset(Keep(s, p))[b] == if p(b) then multiset(s)[b] else 0
  {
    if s != [] {
      KeepCounts(s[1..], p);
      assert s == [s[0]] + s[1..];
    }
  }

  /**
   * Deleting matches works left to right: the kept bytes of a concatenation
   * are the kept bytes of each part, in the same order.
   */
  lemma {:induction false} KeepAppend(a: Bytes, b: Bytes, p: byte -> bool)
    ensures Keep(a + b, p) == Keep(a, p) + Keep(b, p)
  {
    if a == [] {
      assert a + b == b;
    } else {
      assert (a + b)[0] == a[0];
      assert (a + b)[1..] == a[1..] + b;
      KeepAppend(a[1..], b, p);
    }
  }

  /** `regexLetters.ReplaceAllString(token, "")` with `regexLetters` = `\W+`. */
  function DeleteNonWord(s: Bytes): Bytes { Keep(s, IsWordByte) }

  /** `regexCapitals.ReplaceAllString(token, "")` with `regexCapitals` = `[a-z]+`. */
  function DeleteLower(s: Bytes): Bytes { Keep(s, NotLower) }

  function UpperByte(b: byte): byte { if IsLower(b) then b - 32 else b }

  /**
   * `strings.ToUpper` on an ASCII string: 'a' .. 'z' become 'A' .. 'Z' and
   * every other byte is kept. Every string it is applied to here is ASCII.
   */
  function ToUpper(s: Bytes): (r: Bytes)
    ensures |r| == |s|
    ensures NoLower(r)
    ensures AllWord(s) ==> AllWord(r)
    ensures NoLower(s) ==> r == s
    ensures forall i :: 0 <= i < |s| && !IsLower(s[i]) ==> r[i] == s[i]
    ensures forall i :: 0 <= i < |s| && IsLower(s[i]) ==>
              IsUpper(r[i]) && r[i] as int - 65 == s[i] as int - 97
  {
    seq(|s|, i requires 0 <= i < |s| => UpperByte(s[i]))
  }
}
