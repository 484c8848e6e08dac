/**
 * The java.lang.String operations the inbox code relies on: trim, the blank test built on it,
 * lower-casing and case-insensitive comparison (ASCII letters), lastIndexOf, and the text that
 * string concatenation prints for a null reference.
 */
module JavaStrings {
  import opened Wrappers

  /** The characters String.trim strips: every char up to and including U+0020. */
  predicate IsTrimmable(c: char) { c <= ' ' }

  /** Index of the first character that trim keeps (|s| when there is none). */
  function TrimStart(s: string): (k: nat)
    ensures k <= |s|
    ensures forall i :: 0 <= i < k ==> IsTrimmable(s[i])
    ensures k < |s| ==> !IsTrimmable(s[k])
  {
    if s == [] || !IsTrimmable(s[0]) then 0 else 1 + TrimStart(s[1..])
  }

  /** One past the last character that trim keeps, scanning back no further than lo. */
  function TrimEnd(s: string, lo: nat): (k: nat)
    requires lo <= |s|
    ensures lo <= k <= |s|
    ensures forall i :: k <= i < |s| ==> IsTrimmable(s[i])
    ensures k > lo ==> !IsTrimmable(s[k - 1])
    decreases |s|
  {
    if |s| == lo || !IsTrimmable(s[|s| - 1]) then |s| else TrimEnd(s[..|s| - 1], lo)
  }

  /** String.trim: s without its leading and trailing characters up to U+0020. */
  function Trim(s: string): (r: string)
    ensures |r| <= |s|
    ensures r == [] <==> forall i :: 0 <= i < |s| ==> IsTrimmable(s[i])
    ensures r != [] ==> !IsTrimmable(r[0]) && !IsTrimmable(r[|r| - 1])
    ensures s == [] || (!IsTrimmable(s[0]) && !IsTrimmable(s[|s| - 1])) ==> r == s
  {
    var a := TrimStart(s);
    var b := TrimEnd(s, a);
    assert a < |s| ==> b > a;
    s[a..b]
  }

  /** Every character of s is one that trim strips. */
  predicate AllTrimmable(s: string)
  {
    forall i :: 0 <= i < |s| ==> IsTrimmable(s[i])
  }

  /** trim() of a text padded on both sides with strippable characters is the text itself. */
  lemma TrimOfPadded(u: string, m: string, v: string)
    requires AllTrimmable(u) && AllTrimmable(v)
    requires m == [] || (!IsTrimmable(m[0]) && !IsTrimmable(m[|m| - 1]))
    ensures Trim(u + m + v) == m
  {
    var s := u + m + v;
    if m == [] {
      assert forall i :: 0 <= i < |s| ==> IsTrimmable(s[i]) by {
        assert s == u + v;
        forall i | 0 <= i < |s| ensures IsTrimmable(s[i]) {
          if i < |u| { assert s[i] == u[i]; } else { assert s[i] == v[i - |u|]; }
        }
      }
    } else {
      var a := TrimStart(s);
      assert s[|u|] == m[0];
      assert a == |u|;
      var b := TrimEnd(s, a);
      assert s[|u| + |m| - 1] == m[|m| - 1];
      assert b == |u| + |m|;
      assert s[a..b] == m;
    }
  }

  /** Every string is trim() of itself padded by the strippable characters trim removes. */
  lemma TrimSplit(s: string) returns (u: string, v: string)
    ensures s == u + Trim(s) + v && AllTrimmable(u) && AllTrimmable(v)
  {
    var a := TrimStart(s);
    var b := TrimEnd(s, a);
    u, v := s[..a], s[b..];
    assert s == s[..a] + s[a..b] + s[b..];
  }

  /** trim() removes nothing but strippable padding. */
  lemma TrimRemovesPadding(s: string)
    ensures exists u, v :: AllTrimmable(u) && AllTrimmable(v) && s == u + Trim(s) + v
  {
    var u, v := TrimSplit(s);
  }

  /** Strippable characters joined are strippable. */
  lemma AllTrimmableConcat(x: string, y: string)
    requires AllTrimmable(x) && AllTrimmable(y)
    ensures AllTrimmable(x + y)
  {
    assert forall i :: |x| <= i < |x + y| ==> (x + y)[i] == y[i - |x|];
  }

  /** Strippable characters added on either side do not change what trim() returns. */
  lemma TrimIgnoresPadding(u: string, s: string, v: string)
    requires AllTrimmable(u) && AllTrimmable(v)
    ensures Trim(u + s + v) == Trim(s)
  {
    var a, b := TrimSplit(s);
    var m := Trim(s);
    AllTrimmableConcat(u, a);
    AllTrimmableConcat(b, v);
    RegroupPadding(u, a, m, b, v);
    TrimOfPadded(u + a, m, b + v);
  }

  /** Padding around padding around a text is one padding on each side. */
  lemma RegroupPadding(u: string, a: string, m: string, b: string, v: string)
    ensures u + (a + m + b) + v == (u + a) + m + (b + v)
  {
  }

  /** trim() is idempotent. */
  lemma TrimIdempotent(s: string)
    ensures Trim(Trim(s)) == Trim(s)
  {
  }

  /** The header test `s.trim().isEmpty()`: s consists only of characters up to U+0020. */
  predicate IsBlank(s: string)
  {
    Trim(s) == []
  }

  /** Character.toLowerCase on ASCII letters; other characters are kept. */
  function LowerChar(c: char): char
  {
    if 'A' <= c <= 'Z' then (c as int + 32) as char else c
  }

  /** String.toLowerCase, letter by letter. */
  function ToLower(s: string): (r: string)
    ensures |r| == |s|
    ensures forall i :: 0 <= i < |s| ==> r[i] == LowerChar(s[i])
  {
    seq(|s|, i requires 0 <= i < |s| => LowerChar(s[i]))
  }

  /** String.equalsIgnoreCase: same length and the same letters up to case. */
  predicate EqualsIgnoreCase(a: string, b: string)
  {
    ToLower(a) == ToLower(b)
  }

  /** String.lastIndexOf of a character that occurs in s. */
  function LastIndexOf(s: string, c: char): (k: nat)
    requires c in s
    ensures k < |s| && s[k] == c
    ensures forall i :: k < i < |s| ==> s[i] != c
  {
    if s[|s| - 1] == c then |s| - 1 else LastIndexOf(s[..|s| - 1], c)
  }

  /** What `"..." + x` prints for a String x that may be null. */
  function OrNull(s: Option<string>): string
  {
    if s.Some? then s.value else "null"
  }
}
