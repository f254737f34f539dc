/**
  String helpers that the client code takes from JavaScript's `String.prototype`:
  `toLowerCase` (restricted to ASCII letters), `includes`, `trim` and the
  100-character description excerpt that three screens repeat.
  Strings are sequences of Unicode code points.
 */
module Text {

  /** JavaScript's `toLowerCase` on one character, ASCII letters only. */
  function LowerChar(c: char): (r: char)
    ensures 'A' <= c <= 'Z' ==> 'a' <= r <= 'z' && r as int - c as int == 32
    ensures !('A' <= c <= 'Z') ==> r == c
  {
    if 'A' <= c <= 'Z' then (c as int + 32) as char else c
  }

  /** `s.toLowerCase()`, ASCII letters only. */
  function Lower(s: string): (r: string)
    ensures |r| == |s|
    ensures forall i :: 0 <= i < |s| ==> r[i] == LowerChar(s[i])
  {
    if |s| == 0 then [] else [LowerChar(s[0])] + Lower(s[1..])
  }

  /** Lowering twice is lowering once. */
  lemma LowerIdempotent(s: string)
    ensures Lower(Lower(s)) == Lower(s)
  {
    var l := Lower(s);
    assert forall i :: 0 <= i < |l| ==> LowerChar(l[i]) == l[i];
  }

  /** A lowered string holds no upper-case ASCII letter. */
  lemma LowerHasNoCapitals(s: string)
    ensures forall i :: 0 <= i < |Lower(s)| ==> !('A' <= Lower(s)[i] <= 'Z')
  {
  }

  /** The independent meaning of `hay.includes(needle)`: `needle` occurs at some offset. */
  ghost predicate OccursAt(hay: string, needle: string, i: int)
  {
    0 <= i && i + |needle| <= |hay| && hay[i..i + |needle|] == needle
  }

  /** `hay.includes(needle)`: try every offset from the left. */
  function Includes(hay: string, needle: string): (r: bool)
    ensures needle <= hay ==> r
    ensures r ==> |needle| <= |hay|
    decreases |hay|
  {
    if needle <= hay then true
    else if |hay| == 0 then false
    else Includes(hay[1..], needle)
  }

  /** `Includes` holds exactly when the needle occurs at some offset of the haystack. */
  lemma {:induction false} IncludesIff(hay: string, needle: string)
    ensures Includes(hay, needle) <==> exists i :: OccursAt(hay, needle, i)
    decreases |hay|
  {
    if needle <= hay {
      assert OccursAt(hay, needle, 0);
    } else if |hay| == 0 {
    } else {
      IncludesIff(hay[1..], needle);
      if exists i :: OccursAt(hay[1..], needle, i) {
        var i :| OccursAt(hay[1..], needle, i);
        assert hay[1..][i..i + |needle|] == hay[i + 1..i + 1 + |needle|];
        assert OccursAt(hay, needle, i + 1);
      }
      if exists i :: OccursAt(hay, needle, i) {
        var i :| OccursAt(hay, needle, i);
        assert i != 0;
        assert hay[1..][i - 1..i - 1 + |needle|] == hay[i..i + |needle|];
        assert OccursAt(hay[1..], needle, i - 1);
      }
    }
  }

  /** The empty string is included in every string, so an empty search term matches everything. */
  lemma IncludesEmpty(hay: string)
    ensures Includes(hay, "")
  {
  }

  /** A string includes itself. */
  lemma IncludesSelf(s: string)
    ensures Includes(s, s)
  {
  }

  /**
    The characters JavaScript's `trim` removes: the ECMAScript WhiteSpace and
    LineTerminator code points.
   */
  predicate IsTrimmable(c: char)
  {
    c == '\t' || c == '\n' || c == '\U{000B}' || c == '\U{000C}' || c == '\r' || c == ' '
    || c == '\U{00A0}' || c == '\U{1680}' || ('\U{2000}' <= c <= '\U{200A}')
    || c == '\U{2028}' || c == '\U{2029}' || c == '\U{202F}' || c == '\U{205F}'
    || c == '\U{3000}' || c == '\U{FEFF}'
  }

  /** `s.trimStart()`. */
  function TrimStart(s: string): (r: string)
    ensures |r| <= |s| && r == s[|s| - |r|..]
    ensures |r| > 0 ==> !IsTrimmable(r[0])
    ensures forall i :: 0 <= i < |s| - |r| ==> IsTrimmable(s[i])
  {
    if |s| > 0 && IsTrimmable(s[0]) then TrimStart(s[1..]) else s
  }

  /** `s.trimEnd()`. */
  function TrimEnd(s: string): (r: string)
    ensures |r| <= |s| && r == s[..|r|]
    ensures |r| > 0 ==> !IsTrimmable(r[|r| - 1])
    ensures forall i :: |r| <= i < |s| ==> IsTrimmable(s[i])
  {
    if |s| > 0 && IsTrimmable(s[|s| - 1]) then TrimEnd(s[..|s| - 1]) else s
  }

  /** `s.trim()`. */
  function Trim(s: string): (r: string)
    ensures |r| <= |s|
    ensures |r| > 0 ==> !IsTrimmable(r[0]) && !IsTrimmable(r[|r| - 1])
    ensures exists a :: TrimmedAt(s, r, a)
  {
    TrimBothEnds(s);
    TrimEnd(TrimStart(s))
  }

  /** Trimming the start and then the end leaves an infix with only trimmable characters around it. */
  lemma TrimBothEnds(s: string)
    ensures var t := TrimStart(s); var r := TrimEnd(t);
      TrimmedAt(s, r, |s| - |t|) && (|r| > 0 ==> !IsTrimmable(r[0]))
  {
    var t := TrimStart(s);
    var r := TrimEnd(t);
    assert |t| <= |s| && t == s[|s| - |t|..];
    assert |r| <= |t| && r == t[..|r|];
    InfixOfSuffix(s, t, r);
    if |r| > 0 {
      assert r[0] == t[0] && !IsTrimmable(t[0]);
    }
  }

  /** A prefix `r` of a suffix `t` of `s`, with trimmable characters cut on both sides, is trimmed at its offset. */
  lemma InfixOfSuffix(s: string, t: string, r: string)
    requires |t| <= |s| && t == s[|s| - |t|..]
    requires forall i :: 0 <= i < |s| - |t| ==> IsTrimmable(s[i])
    requires |r| <= |t| && r == t[..|r|]
    requires forall i :: |r| <= i < |t| ==> IsTrimmable(t[i])
    ensures TrimmedAt(s, r, |s| - |t|)
  {
    var a := |s| - |t|;
    forall i | a + |r| <= i < |s|
      ensures IsTrimmable(s[i])
    {
      assert s[i] == t[i - a];
    }
  }

  /** `r` is the part of `s` at offset `a`, and everything of `s` around it is trimmable. */
  ghost predicate TrimmedAt(s: string, r: string, a: int)
  {
    && 0 <= a && a + |r| <= |s| && r == s[a..a + |r|]
    && (forall i :: 0 <= i < a ==> IsTrimmable(s[i]))
    && (forall i :: a + |r| <= i < |s| ==> IsTrimmable(s[i]))
  }

  /** `!s.trim()` in JavaScript: the trimmed string is empty, i.e. every character is trimmable. */
  predicate IsBlank(s: string)
  {
    Trim(s) == ""
  }

  /** A string is blank exactly when all of its characters are white space or line terminators. */
  lemma BlankIff(s: string)
    ensures IsBlank(s) <==> forall i :: 0 <= i < |s| ==> IsTrimmable(s[i])
  {
    var t := TrimStart(s);
    if forall i :: 0 <= i < |s| ==> IsTrimmable(s[i]) {
      if |t| > 0 {
        assert t[0] == s[|s| - |t|];
      }
    } else {
      var i :| 0 <= i < |s| && !IsTrimmable(s[i]);
      assert |t| > 0;
      assert !IsTrimmable(t[0]);
      assert |TrimEnd(t)| > 0;
    }
  }

  /** The number of characters a description shows before it is cut. */
  const ExcerptLength: nat := 100

  /**
    The description shown on course cards: longer than 100 characters becomes
    its first 100 characters followed by "...", otherwise it is unchanged.
   */
  function Excerpt(s: string): (r: string)
    ensures |s| <= ExcerptLength ==> r == s
    ensures |s| > ExcerptLength ==> |r| == ExcerptLength + 3 && r[..ExcerptLength] == s[..ExcerptLength] && r[ExcerptLength..] == "..."
    ensures |r| <= ExcerptLength + 3
  {
    if |s| > ExcerptLength then s[..ExcerptLength] + "..." else s
  }

  /** Cutting an excerpt again changes nothing: the ellipsis already sits at position 100. */
  lemma ExcerptIdempotent(s: string)
    ensures Excerpt(Excerpt(s)) == Excerpt(s)
  {
    if |s| > ExcerptLength {
      var e := Excerpt(s);
      assert e[..ExcerptLength] == s[..ExcerptLength];
    }
  }

  /** Every excerpt begins with the description it was cut from, up to 100 characters. */
  lemma ExcerptKeepsPrefix(s: string)
    ensures var n := if |s| < ExcerptLength then |s| else ExcerptLength;
      Excerpt(s)[..n] == s[..n]
  {
  }
}
