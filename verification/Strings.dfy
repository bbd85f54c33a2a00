/**
  The string operations of external/easylogging++/easylogging++.cc and of std::string that several modules
  use; a std::string is a seq<char>, a C string the characters before its NUL.
 */
module Strings {
  import opened Levels

  /** std::isspace in the C locale. */
  predicate IsSpace(c: char) {
    c == ' ' || ('\t' <= c <= '\r')
  }

  predicate IsDigit(c: char) {
    '0' <= c <= '9'
  }

  function DigitChar(d: nat): char
    requires d < 10
  {
    ('0' as nat + d) as char
  }

  /** Str::ltrim. */
  function TrimLeft(s: string): string {
    if s != "" && IsSpace(s[0]) then TrimLeft(s[1..]) else s
  }

  /** Str::rtrim. */
  function TrimRight(s: string): string {
    if s != "" && IsSpace(s[|s| - 1]) then TrimRight(s[..|s| - 1]) else s
  }

  /** Str::trim. */
  function Trim(s: string): string {
    TrimLeft(TrimRight(s))
  }

  predicate AllSpace(s: string) {
    forall i :: 0 <= i < |s| ==> IsSpace(s[i])
  }

  /** Nothing to trim: the string is empty or has no white space at either end. */
  predicate Trimmed(s: string) {
    s == "" || (!IsSpace(s[0]) && !IsSpace(s[|s| - 1]))
  }

  lemma {:induction false} TrimLeftPadded(pad: string, s: string)
    requires AllSpace(pad)
    ensures TrimLeft(pad + s) == TrimLeft(s)
  {
    if pad == "" {
      assert pad + s == s;
    } else {
      assert (pad + s)[1..] == pad[1..] + s;
      TrimLeftPadded(pad[1..], s);
    }
  }

  lemma {:induction false} TrimRightPadded(s: string, pad: string)
    requires AllSpace(pad)
    ensures TrimRight(s + pad) == TrimRight(s)
  {
    if pad == "" {
      assert s + pad == s;
    } else {
      assert (s + pad)[..|s + pad| - 1] == s + pad[..|pad| - 1];
      TrimRightPadded(s, pad[..|pad| - 1]);
    }
  }

  /** Trimming takes off exactly the white space around a string that neither begins nor ends with any. */
  lemma TrimPadded(left: string, s: string, right: string)
    requires AllSpace(left) && AllSpace(right) && Trimmed(s)
    ensures Trim(left + s + right) == s
  {
    TrimRightPadded(left + s, right);
    if s == "" {
      assert left + s == "" + left;
      TrimRightPadded("", left);
    } else {
      assert (left + s)[|left + s| - 1] == s[|s| - 1];
      TrimLeftPadded(left, s);
    }
  }

  /** s has t at offset p. */
  predicate OccursAt(s: string, t: string, p: int) {
    0 <= p && p + |t| <= |s| && s[p..p + |t|] == t
  }

  /** std::string::find(t, from): the first offset not before from, or None for npos. */
  function Find(s: string, t: string, from: nat): (r: Option<nat>)
    ensures r.Some? ==> from <= r.value && r.value + |t| <= |s| && OccursAt(s, t, r.value)
    ensures r.Some? ==> forall p :: from <= p < r.value ==> !OccursAt(s, t, p)
    ensures r.None? ==> forall p :: from <= p ==> !OccursAt(s, t, p)
    decreases |s| - from
  {
    if OccursAt(s, t, from) then Some(from)
    else if from >= |s| then None
    else Find(s, t, from + 1)
  }

  lemma PrefixTail(w: string, f: string)
    requires w != "" && f != ""
    ensures w <= f <==> w[0] == f[0] && w[1..] <= f[1..]
  {
    if w[0] == f[0] && w[1..] <= f[1..] {
      assert w == [w[0]] + w[1..] && f == [f[0]] + f[1..];
    }
  }

  /** The characters in front of the first NUL, as a C function sees a string. */
  function CStr(s: string): string {
    if s == "" || s[0] == '\0' then "" else [s[0]] + CStr(s[1..])
  }
}
