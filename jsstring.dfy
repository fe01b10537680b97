/** The JavaScript string operations the handlers rely on, over strings of
    Unicode scalar values: `trim`, `toLowerCase` on ASCII letters, `replace`
    with a string pattern (first occurrence only) and `length` (UTF-16 code
    units). */
module JsString {
  import opened Wrappers

  /** The characters `String.prototype.trim` removes: ECMAScript's WhiteSpace
      (tab, vertical tab, form feed, space, no-break space, byte order mark and
      the space separators) and LineTerminator characters. */
  predicate IsSpace(c: char) {
    var n := c as int;
    n == 0x09 || n == 0x0A || n == 0x0B || n == 0x0C || n == 0x0D
    || n == 0x20 || n == 0xA0 || n == 0x1680 || (0x2000 <= n <= 0x200A)
    || n == 0x2028 || n == 0x2029 || n == 0x202F || n == 0x205F
    || n == 0x3000 || n == 0xFEFF
  }

  predicate NoSpace(s: string) {
    forall i :: 0 <= i < |s| ==> !IsSpace(s[i])
  }

  /** Drops the leading white space. */
  function TrimStart(s: string): (r: string)
    ensures |r| <= |s|
    ensures r != [] ==> !IsSpace(r[0])
  {
    if s != [] && IsSpace(s[0]) then TrimStart(s[1..]) else s
  }

  /** Drops the trailing white space. */
  function TrimEnd(s: string): (r: string)
    ensures |r| <= |s|
    ensures r != [] ==> !IsSpace(r[|r| - 1])
  {
    if s != [] && IsSpace(s[|s| - 1]) then TrimEnd(s[..|s| - 1]) else s
  }

  /** `TrimStart` keeps a suffix and drops only white space before it. */
  lemma {:induction false} TrimStartKeepsSuffix(s: string)
    ensures TrimStart(s) == s[|s| - |TrimStart(s)|..]
    ensures forall k :: 0 <= k < |s| - |TrimStart(s)| ==> IsSpace(s[k])
  {
    if s != [] && IsSpace(s[0]) {
      TrimStartKeepsSuffix(s[1..]);
    }
  }

  /** `TrimEnd` keeps a prefix and drops only white space after it. */
  lemma {:induction false} TrimEndKeepsPrefix(s: string)
    ensures TrimEnd(s) == s[..|TrimEnd(s)|]
    ensures forall k :: |TrimEnd(s)| <= k < |s| ==> IsSpace(s[k])
  {
    if s != [] && IsSpace(s[|s| - 1]) {
      TrimEndKeepsPrefix(s[..|s| - 1]);
    }
  }

  /** `r` is `s` with white space, and only white space, cut from both ends. */
  ghost predicate TrimmedFrom(s: string, r: string) {
    exists i :: TrimmedAt(s, r, i)
  }

  /** `r` is the part of `s` from index `i` on, with white space only around it. */
  ghost predicate TrimmedAt(s: string, r: string, i: int) {
    0 <= i <= |s| - |r| && r == s[i..i + |r|]
    && (forall k :: 0 <= k < i ==> IsSpace(s[k]))
    && (forall k :: i + |r| <= k < |s| ==> IsSpace(s[k]))
  }

  /** `String.prototype.trim`: no white space at either end of the result. */
  function Trim(s: string): (r: string)
    ensures |r| <= |s|
    ensures r != [] ==> !IsSpace(r[0]) && !IsSpace(r[|r| - 1])
  {
    var t := TrimStart(s);
    TrimEndKeepsPrefix(t);
    TrimEnd(t)
  }

  /** Cutting a white-space prefix and then a white-space suffix leaves a
      contiguous part of `s` with white space only around it. */
  lemma TrimmedInTwoCuts(s: string, t: string, r: string)
    requires |t| <= |s| && t == s[|s| - |t|..]
    requires forall k :: 0 <= k < |s| - |t| ==> IsSpace(s[k])
    requires |r| <= |t| && r == t[..|r|]
    requires forall k :: |r| <= k < |t| ==> IsSpace(t[k])
    ensures TrimmedAt(s, r, |s| - |t|)
  {
    var i := |s| - |t|;
    assert r == s[i..i + |r|];
    forall k | i + |r| <= k < |s|
      ensures IsSpace(s[k])
    {
      assert s[k] == t[k - i];
    }
  }

  /** What trimming cuts from `s` is white space at its ends, and nothing else. */
  lemma TrimCutsOnlySpace(s: string)
    ensures TrimmedFrom(s, Trim(s))
  {
    var t := TrimStart(s);
    var r := TrimEnd(t);
    TrimStartKeepsSuffix(s);
    TrimEndKeepsPrefix(t);
    TrimmedInTwoCuts(s, t, r);
    assert TrimmedAt(s, Trim(s), |s| - |t|);
  }

  /** Trimming a string that holds no white space leaves it as it is. */
  lemma TrimSpaceless(s: string)
    requires NoSpace(s)
    ensures Trim(s) == s
  {
  }

  /** A string made only of white space trims to the empty string. */
  lemma {:induction false} TrimAllSpace(s: string)
    requires forall i :: 0 <= i < |s| ==> IsSpace(s[i])
    ensures Trim(s) == ""
  {
    if s != [] {
      TrimAllSpace(s[1..]);
    }
  }

  /** `toLowerCase` on one character, for the ASCII letters. */
  function LowerChar(c: char): char {
    if 'A' <= c <= 'Z' then (c as int + 32) as char else c
  }

  /** `toLowerCase`, mapping `A`-`Z` to `a`-`z` and leaving every other
      character as it is. */
  function ToLower(s: string): (r: string)
    ensures |r| == |s|
    ensures forall i :: 0 <= i < |s| ==> r[i] == LowerChar(s[i])
  {
    seq(|s|, i requires 0 <= i < |s| => LowerChar(s[i]))
  }

  /** `p` occurs in `s` at index `k`. */
  predicate OccursAt(s: string, p: string, k: nat) {
    k + |p| <= |s| && s[k..k + |p|] == p
  }

  /** `String.prototype.indexOf`: the first index at which `p` occurs in `s`,
      or `None` when it occurs nowhere. */
  function IndexOf(s: string, p: string): (r: Option<nat>)
    ensures r.Some? ==> OccursAt(s, p, r.value)
    ensures r.Some? ==> forall k: nat :: k < r.value ==> !OccursAt(s, p, k)
    ensures r.None? ==> forall k: nat :: !OccursAt(s, p, k)
    decreases |s|
  {
    if |s| < |p| then None
    else if s[..|p|] == p then Some(0)
    else
      assert forall k: nat :: OccursAt(s, p, k) ==> k >= 1 && OccursAt(s[1..], p, k - 1) by {
        forall k: nat | OccursAt(s, p, k) ensures k >= 1 && OccursAt(s[1..], p, k - 1) {
          assert k != 0;
          assert s[1..][k - 1..k - 1 + |p|] == s[k..k + |p|];
        }
      }
      match IndexOf(s[1..], p)
      case None => None
      case Some(k) =>
        assert s[1..][k..k + |p|] == s[k + 1..k + 1 + |p|];
        Some(k + 1)
  }

  /** `s.replace(p, "")` with a string pattern: the first occurrence of `p` is
      cut out; a string without `p` is returned as it is. */
  function RemoveFirst(s: string, p: string): string {
    match IndexOf(s, p)
    case None => s
    case Some(i) => s[..i] + s[i + |p|..]
  }

  /** A string that starts with `p` loses exactly that prefix. */
  lemma RemoveFirstPrefix(p: string, t: string)
    ensures RemoveFirst(p + t, p) == t
  {
    var s := p + t;
    assert OccursAt(s, p, 0);
  }

  /** The `length` property: UTF-16 code units, so a character outside the
      Basic Multilingual Plane counts twice. */
  function Utf16Length(s: string): (n: nat)
    ensures |s| <= n <= 2 * |s|
  {
    if s == [] then 0
    else (if s[0] as int >= 0x10000 then 2 else 1) + Utf16Length(s[1..])
  }
}
