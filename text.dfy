/** The JavaScript string operations the demo relies on, over strings of
    Unicode scalar values: `trim`, `toLowerCase` (ASCII letters), `indexOf`,
    `includes` and the UTF-16 `length`. */
module Text {
  import opened Wrappers

  /** The characters `String.prototype.trim` removes: ECMAScript WhiteSpace
      (tab, vertical tab, form feed, space, no-break space, byte order mark and
      the other space separators) and LineTerminator. */
  predicate IsTrimmable(c: char) {
    || c == '\U{0009}' || c == '\U{000B}' || c == '\U{000C}' || c == ' '
    || c == '\U{00A0}' || c == '\U{FEFF}'
    || c == '\U{000A}' || c == '\U{000D}' || c == '\U{2028}' || c == '\U{2029}'
    || c == '\U{1680}' || ('\U{2000}' <= c <= '\U{200A}')
    || c == '\U{202F}' || c == '\U{205F}' || c == '\U{3000}'
  }

  /** Leading trimmable characters removed: what is left is a suffix of `s`
      that does not start with one. */
  function TrimStart(s: string): (r: string)
    ensures |r| <= |s| && r == s[|s| - |r|..]
    ensures r != [] ==> !IsTrimmable(r[0])
  {
    if s != [] && IsTrimmable(s[0]) then TrimStart(s[1..]) else s
  }

  /** What `TrimStart` drops is trimmable characters only. */
  lemma {:induction false} TrimStartDropsTrimmable(s: string)
    ensures forall i :: 0 <= i < |s| - |TrimStart(s)| ==> IsTrimmable(s[i])
  {
    if s != [] && IsTrimmable(s[0]) {
      TrimStartDropsTrimmable(s[1..]);
      forall i | 1 <= i < |s| - |TrimStart(s)| ensures IsTrimmable(s[i]) {
        assert s[i] == s[1..][i - 1];
      }
    }
  }

  /** Trailing trimmable characters removed: what is left is a prefix of `s`
      that does not end with one. */
  function TrimEnd(s: string): (r: string)
    ensures |r| <= |s| && r == s[..|r|]
    ensures r != [] ==> !IsTrimmable(r[|r| - 1])
  {
    if s != [] && IsTrimmable(s[|s| - 1]) then TrimEnd(s[..|s| - 1]) else s
  }

  /** What `TrimEnd` drops is trimmable characters only. */
  lemma {:induction false} TrimEndDropsTrimmable(s: string)
    ensures forall i :: |TrimEnd(s)| <= i < |s| ==> IsTrimmable(s[i])
  {
    if s != [] && IsTrimmable(s[|s| - 1]) {
      TrimEndDropsTrimmable(s[..|s| - 1]);
      forall i | |TrimEnd(s)| <= i < |s| - 1 ensures IsTrimmable(s[i]) {
        assert s[i] == s[..|s| - 1][i];
      }
    }
  }

  /** A prefix of a suffix is a slice. */
  lemma SliceOfSuffix(s: string, k: nat, m: nat)
    requires k + m <= |s|
    ensures s[k..][..m] == s[k..k + m]
  {
  }

  /** `String.prototype.trim`: a slice of `s`, starting where `TrimStart`
      stops, that neither starts nor ends with a trimmable character. */
  function Trim(s: string): (r: string)
    ensures |r| <= |s|
    ensures var k := |s| - |TrimStart(s)|; k + |r| <= |s| && r == s[k..k + |r|]
    ensures r != [] ==> !IsTrimmable(r[0]) && !IsTrimmable(r[|r| - 1])
  {
    var t := TrimStart(s);
    var r := TrimEnd(t);
    SliceOfSuffix(s, |s| - |t|, |r|);
    r
  }

  /** What `trim` drops on either side of its slice is trimmable characters
      only. */
  lemma TrimDropsTrimmable(s: string)
    ensures forall i :: 0 <= i < |s| - |TrimStart(s)| ==> IsTrimmable(s[i])
    ensures forall i :: |s| - |TrimStart(s)| + |Trim(s)| <= i < |s| ==> IsTrimmable(s[i])
  {
    var t := TrimStart(s);
    var k := |s| - |t|;
    TrimStartDropsTrimmable(s);
    TrimEndDropsTrimmable(t);
    forall i | k + |Trim(s)| <= i < |s| ensures IsTrimmable(s[i]) {
      assert s[i] == t[i - k];
    }
  }

  /** A string that neither starts nor ends with a trimmable character is
      left alone by `trim`. */
  lemma {:induction false} TrimFixesTrimmed(s: string)
    requires s == [] || (!IsTrimmable(s[0]) && !IsTrimmable(s[|s| - 1]))
    ensures Trim(s) == s
  {
    assert TrimStart(s) == s;
    assert TrimEnd(s) == s;
  }

  /** `trim` is idempotent. */
  lemma TrimIdempotent(s: string)
    ensures Trim(Trim(s)) == Trim(s)
  {
    TrimFixesTrimmed(Trim(s));
  }

  function LowerChar(c: char): char {
    if 'A' <= c <= 'Z' then (c as int + 32) as char else c
  }

  /** `toLowerCase`, restricted to the ASCII letters. */
  function ToLowerAscii(s: string): (r: string)
    ensures |r| == |s|
    ensures forall i :: 0 <= i < |s| ==> r[i] == LowerChar(s[i])
  {
    seq(|s|, i requires 0 <= i < |s| => LowerChar(s[i]))
  }

  /** `needle` occurs in `hay` starting at index `j`. */
  predicate OccursAt(hay: string, needle: string, j: int) {
    0 <= j && j + |needle| <= |hay| && hay[j..j + |needle|] == needle
  }

  /** `hay.indexOf(needle, k)`: the first occurrence at or after `k`. */
  function IndexFrom(hay: string, needle: string, k: nat): (r: Option<nat>)
    decreases |hay| - k
    ensures r.Some? ==> k <= r.value && OccursAt(hay, needle, r.value)
    ensures r.Some? ==> forall j :: k <= j < r.value ==> !OccursAt(hay, needle, j)
    ensures r.None? ==> forall j :: k <= j ==> !OccursAt(hay, needle, j)
  {
    if k + |needle| > |hay| then None
    else if hay[k..k + |needle|] == needle then Some(k)
    else IndexFrom(hay, needle, k + 1)
  }

  /** `hay.indexOf(needle)`, with `None` for JavaScript's -1. */
  function IndexOf(hay: string, needle: string): (r: Option<nat>)
    ensures r.Some? ==> OccursAt(hay, needle, r.value)
    ensures r.Some? ==> forall j :: 0 <= j < r.value ==> !OccursAt(hay, needle, j)
    ensures r.None? <==> forall j :: !OccursAt(hay, needle, j)
  {
    IndexFrom(hay, needle, 0)
  }

  /** An occurrence with none before it is what `indexOf` finds. */
  lemma IndexOfFirstOccurrence(hay: string, needle: string, i: nat)
    requires OccursAt(hay, needle, i)
    requires forall j :: 0 <= j < i ==> !OccursAt(hay, needle, j)
    ensures IndexOf(hay, needle) == Some(i)
  {
    var k := IndexOf(hay, needle);
    assert k.Some?;
    assert OccursAt(hay, needle, k.value);
  }

  /** `hay.includes(needle)`. */
  predicate Contains(hay: string, needle: string) {
    IndexOf(hay, needle).Some?
  }

  /** `includes` holds exactly when the needle occurs somewhere. */
  lemma ContainsIffOccurs(hay: string, needle: string)
    ensures Contains(hay, needle) <==> exists j :: OccursAt(hay, needle, j)
  {
    if Contains(hay, needle) {
      assert OccursAt(hay, needle, IndexOf(hay, needle).value);
    }
  }

  /** Number of UTF-16 code units of one scalar value. */
  function Utf16Units(c: char): nat {
    if c as int < 0x10000 then 1 else 2
  }

  /** Every scalar value lies in the basic multilingual plane. */
  predicate InBasicPlane(s: string) {
    forall i :: 0 <= i < |s| ==> s[i] as int < 0x10000
  }

  /** JavaScript's `length`: the number of UTF-16 code units, one per scalar
      value of the basic multilingual plane and two (a surrogate pair) per
      other scalar value. */
  function Utf16Length(s: string): (n: nat)
    ensures |s| <= n <= 2 * |s|
  {
    if s == [] then 0 else Utf16Units(s[0]) + Utf16Length(s[1..])
  }

  /** The UTF-16 length equals the number of scalar values exactly when all of
      them lie in the basic multilingual plane. */
  lemma {:induction false} Utf16LengthBasicPlane(s: string)
    ensures Utf16Length(s) == |s| <==> InBasicPlane(s)
  {
    if s != [] {
      Utf16LengthBasicPlane(s[1..]);
      if s[0] as int < 0x10000 && InBasicPlane(s[1..]) {
        forall i | 0 <= i < |s| ensures s[i] as int < 0x10000 {
          if i > 0 { assert s[i] == s[1..][i - 1]; }
        }
      }
      if InBasicPlane(s) {
        assert s[0] as int < 0x10000;
        forall i | 0 <= i < |s| - 1 ensures s[1..][i] as int < 0x10000 {
          assert s[1..][i] == s[i + 1];
        }
      }
    }
  }
}
