/** The JavaScript string built-ins the app relies on: `trim` (the empty-title
    check), `toLowerCase` and `toUpperCase` (search, invite codes) and
    `includes` (search). */
module Text {

  /** The characters `String.prototype.trim` strips: the ECMAScript
      WhiteSpace and LineTerminator code points. */
  predicate IsWhitespace(c: char) {
    || c == ' '
    || ('\t' <= c && c <= '\r')
    || c == '\U{00A0}' || c == '\U{1680}'
    || ('\U{2000}' <= c && c <= '\U{200A}')
    || c == '\U{2028}' || c == '\U{2029}' || c == '\U{202F}' || c == '\U{205F}'
    || c == '\U{3000}' || c == '\U{FEFF}'
  }

  /** Every character is whitespace (the empty string included). */
  predicate IsBlank(t: string) {
    forall k :: 0 <= k < |t| ==> IsWhitespace(t[k])
  }

  /** `t` without its leading whitespace. */
  function TrimStart(t: string): (r: string)
    ensures |r| <= |t| && r == t[|t| - |r|..]
    ensures IsBlank(t[..|t| - |r|])
    ensures r == [] || !IsWhitespace(r[0])
    decreases |t|
  {
    if t == [] || !IsWhitespace(t[0]) then t
    else
      var r := TrimStart(t[1..]);
      assert t[..|t| - |r|] == [t[0]] + t[1..][..|t| - 1 - |r|];
      r
  }

  /** `t` without its trailing whitespace. */
  function TrimEnd(t: string): (r: string)
    ensures |r| <= |t| && r == t[..|r|]
    ensures IsBlank(t[|r|..])
    ensures r == [] || !IsWhitespace(r[|r| - 1])
    decreases |t|
  {
    if t == [] || !IsWhitespace(t[|t| - 1]) then t
    else
      var r := TrimEnd(t[..|t| - 1]);
      assert t[|r|..] == t[..|t| - 1][|r|..] + [t[|t| - 1]];
      r
  }

  /** `r` sits at position `a` of `t`, with only whitespace before and after
      it. */
  predicate BlankAround(t: string, r: string, a: int) {
    0 <= a <= |t| - |r| && t[a..a + |r|] == r && IsBlank(t[..a]) && IsBlank(t[a + |r|..])
  }

  /** `String.prototype.trim`: the part of `t` between a blank prefix and a
      blank suffix that neither starts nor ends with whitespace. */
  function Trim(t: string): (r: string)
    ensures |r| <= |t|
    ensures exists a :: BlankAround(t, r, a)
    ensures r == [] || (!IsWhitespace(r[0]) && !IsWhitespace(r[|r| - 1]))
  {
    TrimEndAfterStart(t);
    TrimEnd(TrimStart(t))
  }

  /** The pieces `Trim` strips: the leading whitespace `TrimStart` removes
      and the trailing whitespace `TrimEnd` then removes. */
  lemma TrimEndAfterStart(t: string)
    ensures var u := TrimStart(t);
      && BlankAround(t, TrimEnd(u), |t| - |u|)
      && (TrimEnd(u) == [] || TrimEnd(u)[0] == u[0])
  {
    var u := TrimStart(t);
    var r := TrimEnd(u);
    var a := |t| - |u|;
    assert IsBlank(t[..a]);
    assert t[a..a + |r|] == r by {
      assert u == t[a..] && r == u[..|r|];
    }
    assert IsBlank(t[a + |r|..]) by {
      assert t[a + |r|..] == u[|r|..] by {
        assert u == t[a..];
      }
    }
    assert BlankAround(t, r, a);
  }

  /** A title is rejected as empty after trimming exactly when it consists of
      whitespace only. */
  lemma TrimEmptyIffBlank(t: string)
    ensures Trim(t) == [] <==> IsBlank(t)
  {
    var u := TrimStart(t);
    var r := TrimEnd(u);
    if r == [] {
      assert u[|r|..] == u;
      assert t == t[..|t| - |u|] + u;
    } else {
      assert u[0] == t[|t| - |u|];
      assert !IsWhitespace(t[|t| - |u|]);
    }
  }

  /** `toLowerCase` on one character, for the ASCII letters. */
  function LowerChar(c: char): char {
    if 'A' <= c && c <= 'Z' then (c as int + 32) as char else c
  }

  /** `toUpperCase` on one character, for the ASCII letters. */
  function UpperChar(c: char): char {
    if 'a' <= c && c <= 'z' then (c as int - 32) as char else c
  }

  /** `toLowerCase`: no upper-case ASCII letter is left, and every other
      character is kept. */
  function ToLower(t: string): (r: string)
    ensures |r| == |t|
    ensures forall k :: 0 <= k < |t| ==> r[k] == LowerChar(t[k])
    ensures forall k :: 0 <= k < |r| ==> !('A' <= r[k] <= 'Z')
    ensures forall k :: 0 <= k < |t| && !('A' <= t[k] <= 'Z') ==> r[k] == t[k]
  {
    seq(|t|, k requires 0 <= k < |t| => LowerChar(t[k]))
  }

  /** `toUpperCase`: no lower-case ASCII letter is left, and every other
      character is kept. */
  function ToUpper(t: string): (r: string)
    ensures |r| == |t|
    ensures forall k :: 0 <= k < |t| ==> r[k] == UpperChar(t[k])
    ensures forall k :: 0 <= k < |r| ==> !('a' <= r[k] <= 'z')
    ensures forall k :: 0 <= k < |t| && !('a' <= t[k] <= 'z') ==> r[k] == t[k]
  {
    seq(|t|, k requires 0 <= k < |t| => UpperChar(t[k]))
  }

  /** `needle` occurs in `hay` starting at position `k`. */
  predicate OccursAt(hay: string, needle: string, k: int) {
    0 <= k && k + |needle| <= |hay| && hay[k..k + |needle|] == needle
  }

  /** `String.prototype.includes`: `needle` is a prefix of `hay` or of one of
      its suffixes. */
  predicate Includes(hay: string, needle: string): (b: bool)
    ensures needle == [] ==> b
    ensures b ==> |needle| <= |hay|
    decreases |hay|
  {
    needle <= hay || (hay != [] && Includes(hay[1..], needle))
  }

  /** `Includes` agrees with the positional definition of a substring. */
  lemma {:induction false} IncludesIffOccurs(hay: string, needle: string)
    ensures Includes(hay, needle) <==> exists k :: OccursAt(hay, needle, k)
    decreases |hay|
  {
    if needle <= hay {
      assert OccursAt(hay, needle, 0);
    } else if hay != [] {
      IncludesIffOccurs(hay[1..], needle);
      if Includes(hay[1..], needle) {
        var k :| OccursAt(hay[1..], needle, k);
        assert hay[k + 1..k + 1 + |needle|] == hay[1..][k..k + |needle|];
        assert OccursAt(hay, needle, k + 1);
      } else {
        NoOccurrenceAfterHead(hay, needle);
      }
    }
  }

  /** When `needle` does not start `hay` and occurs nowhere in its tail, it
      occurs nowhere in `hay`. */
  lemma NoOccurrenceAfterHead(hay: string, needle: string)
    requires hay != [] && !(needle <= hay)
    requires forall k :: !OccursAt(hay[1..], needle, k)
    ensures forall k :: !OccursAt(hay, needle, k)
  {
    forall k ensures !OccursAt(hay, needle, k) {
      if 0 < k && k + |needle| <= |hay| {
        assert hay[1..][k - 1..k - 1 + |needle|] == hay[k..k + |needle|];
        assert !OccursAt(hay[1..], needle, k - 1);
      }
    }
  }

  /** An empty search box matches every title. */
  lemma EmptySearchMatchesAll(title: string)
    ensures Includes(ToLower(title), ToLower(""))
  {
    assert ToLower("") == [];
  }
}
