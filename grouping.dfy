/**
 * The grouping key of assign_group: lower-case the description, replace
 * every maximal run of three or more characters from [a-f0-9] by one space,
 * replace every remaining character outside [a-z] by a space, and digest
 * the result. The digest (MD5 in the program) is a parameter.
 */
module Grouping {

  function LowerChar(c: char): char
  {
    if 'A' <= c <= 'Z' then (c as int - 'A' as int + 'a' as int) as char else c
  }

  predicate IsUpper(c: char)
  {
    'A' <= c <= 'Z'
  }

  /**
   * str.lower over ASCII: no capital remains, each capital becomes the same
   * letter in lower case, and every other character stays where it was.
   */
  function Lower(s: string): (r: string)
    ensures |r| == |s|
    ensures forall i :: 0 <= i < |r| ==> !IsUpper(r[i])
    ensures forall i :: 0 <= i < |s| && !IsUpper(s[i]) ==> r[i] == s[i]
    ensures forall i :: 0 <= i < |s| && IsUpper(s[i]) ==> r[i] as int - 'a' as int == s[i] as int - 'A' as int
  {
    seq(|s|, i requires 0 <= i < |s| => LowerChar(s[i]))
  }

  /** The character class [a-f0-9]. */
  predicate IsHex(c: char)
  {
    'a' <= c <= 'f' || '0' <= c <= '9'
  }

  predicate IsLetter(c: char)
  {
    'a' <= c <= 'z'
  }

  /** The length of the run of [a-f0-9] characters that starts `s`. */
  function HexRunLength(s: string): (n: nat)
    ensures n <= |s|
    ensures forall i :: 0 <= i < n ==> IsHex(s[i])
    ensures n < |s| ==> !IsHex(s[n])
  {
    if s != [] && IsHex(s[0]) then 1 + HexRunLength(s[1..]) else 0
  }

  /**
   * re.sub("[a-f0-9]{3,}", " ", s): the leftmost-greedy scan replaces each
   * maximal run of at least three hex characters by a single space and
   * leaves shorter runs alone.
   */
  function StripHex(s: string): string
    decreases |s|
  {
    if s == [] then []
    else if !IsHex(s[0]) then [s[0]] + StripHex(s[1..])
    else
      var n := HexRunLength(s);
      if n >= 3 then " " + StripHex(s[n..]) else s[..n] + StripHex(s[n..])
  }

  /**
   * re.sub("[^a-z]", " ", s): the result holds only letters and spaces, every
   * letter of `s` stays at its position, and no letter is introduced.
   */
  function LettersOnly(s: string): (r: string)
    ensures |r| == |s| && LettersAndSpaces(r)
    ensures forall i :: 0 <= i < |s| && IsLetter(s[i]) ==> r[i] == s[i]
    ensures forall i :: 0 <= i < |r| && IsLetter(r[i]) ==> r[i] == s[i]
  {
    seq(|s|, i requires 0 <= i < |s| => if IsLetter(s[i]) then s[i] else ' ')
  }

  /** The normalised text whose digest is the group key (utils.py:76-77), hex strip first. */
  function GroupText(description: string): string
  {
    LettersOnly(StripHex(Lower(description)))
  }

  /** The "group" column (utils.py:78). */
  function GroupKey(digest: string -> string, description: string): string
  {
    digest(GroupText(description))
  }

  // ---------------------------------------------------------------- shape

  /** No three consecutive characters of `t` satisfy IsHex. */
  predicate NoHexTriple(t: string)
  {
    forall i :: 0 <= i && i + 2 < |t| ==> !(IsHex(t[i]) && IsHex(t[i + 1]) && IsHex(t[i + 2]))
  }

  predicate IsAF(c: char)
  {
    'a' <= c <= 'f'
  }

  /** Only a-z and spaces. */
  predicate LettersAndSpaces(t: string)
  {
    forall i :: 0 <= i < |t| ==> IsLetter(t[i]) || t[i] == ' '
  }

  /** No three consecutive characters of `t` come from a-f. */
  predicate NoAFTriple(t: string)
  {
    forall i :: 0 <= i && i + 2 < |t| ==> !(IsAF(t[i]) && IsAF(t[i + 1]) && IsAF(t[i + 2]))
  }

  lemma ConsNonHex(c: char, r: string)
    requires !IsHex(c) && NoHexTriple(r)
    ensures NoHexTriple([c] + r)
  {
    var t := [c] + r;
    forall i | 0 <= i && i + 2 < |t|
      ensures !(IsHex(t[i]) && IsHex(t[i + 1]) && IsHex(t[i + 2]))
    {
      if i > 0 {
        assert t[i] == r[i - 1] && t[i + 1] == r[i] && t[i + 2] == r[i + 1];
      }
    }
  }

  lemma ShortRunThenBreak(a: string, r: string)
    requires |a| <= 2 && NoHexTriple(r) && (r == [] || !IsHex(r[0]))
    ensures NoHexTriple(a + r)
  {
    var t := a + r;
    forall i | 0 <= i && i + 2 < |t|
      ensures !(IsHex(t[i]) && IsHex(t[i + 1]) && IsHex(t[i + 2]))
    {
      if i >= |a| {
        assert t[i] == r[i - |a|] && t[i + 1] == r[i - |a| + 1] && t[i + 2] == r[i - |a| + 2];
      } else {
        assert t[|a|] == r[0];
      }
    }
  }

  lemma StripHexStartsWith(s: string)
    requires s != [] && !IsHex(s[0])
    ensures StripHex(s) != [] && StripHex(s)[0] == s[0]
  {
  }

  /** After the hex strip, no three consecutive [a-f0-9] characters remain. */
  lemma {:induction false} StripHexNoHexTriple(s: string)
    ensures NoHexTriple(StripHex(s))
    decreases |s|
  {
    if s == [] {
    } else if !IsHex(s[0]) {
      StripHexNoHexTriple(s[1..]);
      ConsNonHex(s[0], StripHex(s[1..]));
    } else {
      var n := HexRunLength(s);
      StripHexNoHexTriple(s[n..]);
      if n >= 3 {
        ConsNonHex(' ', StripHex(s[n..]));
      } else {
        if n < |s| {
          StripHexStartsWith(s[n..]);
        }
        ShortRunThenBreak(s[..n], StripHex(s[n..]));
      }
    }
  }

  /** The normalised text holds only a-z and spaces, with no run of three a-f letters (utils.py:76-77). */
  lemma GroupTextShape(description: string)
    ensures LettersAndSpaces(GroupText(description))
    ensures NoAFTriple(GroupText(description))
  {
    var t := StripHex(Lower(description));
    StripHexNoHexTriple(Lower(description));
    var g := LettersOnly(t);
    forall i | 0 <= i && i + 2 < |g|
      ensures !(IsAF(g[i]) && IsAF(g[i + 1]) && IsAF(g[i + 2]))
    {
      if IsAF(g[i]) && IsAF(g[i + 1]) && IsAF(g[i + 2]) {
        assert IsHex(t[i]) && IsHex(t[i + 1]) && IsHex(t[i + 2]);
        assert false;
      }
    }
  }

  /** Text without three consecutive hex characters passes the hex strip unchanged. */
  lemma {:induction false} StripHexKeeps(t: string)
    requires NoHexTriple(t)
    ensures StripHex(t) == t
    decreases |t|
  {
    if t == [] {
    } else if !IsHex(t[0]) {
      assert NoHexTriple(t[1..]) by {
        forall i | 0 <= i && i + 2 < |t[1..]|
          ensures !(IsHex(t[1..][i]) && IsHex(t[1..][i + 1]) && IsHex(t[1..][i + 2]))
        {
          assert t[1..][i] == t[i + 1] && t[1..][i + 1] == t[i + 2] && t[1..][i + 2] == t[i + 3];
        }
      }
      StripHexKeeps(t[1..]);
      assert t == [t[0]] + t[1..];
    } else {
      var n := HexRunLength(t);
      if |t| >= 3 {
        assert !(IsHex(t[0]) && IsHex(t[1]) && IsHex(t[2]));
      }
      assert n < 3;
      assert NoHexTriple(t[n..]) by {
        forall i | 0 <= i && i + 2 < |t[n..]|
          ensures !(IsHex(t[n..][i]) && IsHex(t[n..][i + 1]) && IsHex(t[n..][i + 2]))
        {
          assert t[n..][i] == t[i + n] && t[n..][i + 1] == t[i + n + 1] && t[n..][i + 2] == t[i + n + 2];
        }
      }
      StripHexKeeps(t[n..]);
      assert t == t[..n] + t[n..];
    }
  }

  lemma NormalisedHasNoHexTriple(g: string)
    requires LettersAndSpaces(g) && NoAFTriple(g)
    ensures NoHexTriple(g)
  {
    forall i | 0 <= i && i + 2 < |g|
      ensures !(IsHex(g[i]) && IsHex(g[i + 1]) && IsHex(g[i + 2]))
    {
      assert IsHex(g[i]) ==> IsAF(g[i]);
      assert IsHex(g[i + 1]) ==> IsAF(g[i + 1]);
      assert IsHex(g[i + 2]) ==> IsAF(g[i + 2]);
    }
  }

  /** Lower-casing twice is lower-casing once. */
  lemma LowerIdempotent(s: string)
    ensures Lower(Lower(s)) == Lower(s)
  {
  }

  lemma NormalisedIsFixed(g: string)
    requires LettersAndSpaces(g)
    ensures Lower(g) == g && LettersOnly(g) == g
  {
  }

  /** Normalising already-normalised text returns it unchanged (utils.py:76-77). */
  lemma GroupTextIdempotent(description: string)
    ensures GroupText(GroupText(description)) == GroupText(description)
  {
    var g := GroupText(description);
    GroupTextShape(description);
    NormalisedIsFixed(g);
    NormalisedHasNoHexTriple(g);
    StripHexKeeps(g);
  }

  // ------------------------------------------------------------ hex tokens

  lemma {:induction false} HexRunLengthAppend(p: string, r: string)
    requires p != [] && !IsHex(p[|p| - 1])
    ensures HexRunLength(p + r) == HexRunLength(p) < |p|
    decreases |p|
  {
    if IsHex(p[0]) {
      assert |p| > 1;
      assert (p + r)[1..] == p[1..] + r;
      HexRunLengthAppend(p[1..], r);
    }
  }

  lemma {:induction false} HexRunLengthOfRun(h: string, q: string)
    requires forall i :: 0 <= i < |h| ==> IsHex(h[i])
    requires q == [] || !IsHex(q[0])
    ensures HexRunLength(h + q) == |h|
    decreases |h|
  {
    if h == [] {
      assert h + q == q;
    } else {
      assert (h + q)[1..] == h[1..] + q;
      HexRunLengthOfRun(h[1..], q);
    }
  }

  /** The hex strip splits at a non-hex character. */
  lemma {:induction false} StripHexAppend(p: string, r: string)
    requires p == [] || !IsHex(p[|p| - 1])
    ensures StripHex(p + r) == StripHex(p) + StripHex(r)
    decreases |p|
  {
    if p == [] {
      assert p + r == r;
    } else if !IsHex(p[0]) {
      assert (p + r)[1..] == p[1..] + r;
      StripHexAppend(p[1..], r);
    } else {
      var n := HexRunLength(p);
      HexRunLengthAppend(p, r);
      StripHexAppend(p[n..], r);
      StripHexAppendRun(p, r, n);
    }
  }

  /** The hex-run step of StripHexAppend: the run that starts p ends inside p. */
  lemma StripHexAppendRun(p: string, r: string, n: nat)
    requires p != [] && IsHex(p[0]) && n == HexRunLength(p) < |p|
    requires StripHex(p[n..] + r) == StripHex(p[n..]) + StripHex(r)
    ensures StripHex(p + r) == StripHex(p) + StripHex(r)
  {
    var h, q := p[..n], p[n..];
    assert p == h + q;
    assert p + r == h + (q + r);
    assert (q + r)[0] == q[0];
    if n >= 3 {
      StripHexRun(h, q);
      StripHexRun(h, q + r);
      Reassemble(" ", StripHex(q), StripHex(r), StripHex(p + r), StripHex(p));
    } else {
      StripHexShortRun(h, q);
      StripHexShortRun(h, q + r);
      Reassemble(h, StripHex(q), StripHex(r), StripHex(p + r), StripHex(p));
    }
  }

  /** A text split as head, then x, then y, is the text head + x followed by y. */
  lemma Reassemble(head: string, x: string, y: string, whole: string, left: string)
    requires whole == head + (x + y) && left == head + x
    ensures whole == left + y
  {
  }

  /** A maximal run of one or two hex characters is kept. */
  lemma StripHexShortRun(h: string, q: string)
    requires 0 < |h| < 3 && forall i :: 0 <= i < |h| ==> IsHex(h[i])
    requires q == [] || !IsHex(q[0])
    ensures StripHex(h + q) == h + StripHex(q)
  {
    HexRunLengthOfRun(h, q);
    assert (h + q)[..|h|] == h;
    assert (h + q)[|h|..] == q;
  }

  /** A maximal run of at least three hex characters becomes one space. */
  lemma StripHexRun(h: string, q: string)
    requires |h| >= 3 && forall i :: 0 <= i < |h| ==> IsHex(h[i])
    requires q == [] || !IsHex(q[0])
    ensures StripHex(h + q) == " " + StripHex(q)
  {
    HexRunLengthOfRun(h, q);
    assert (h + q)[|h|..] == q;
  }

  lemma LowerAppend(a: string, b: string)
    ensures Lower(a + b) == Lower(a) + Lower(b)
  {
  }

  lemma LettersOnlyAppend(a: string, b: string)
    ensures LettersOnly(a + b) == LettersOnly(a) + LettersOnly(b)
  {
  }

  /** A description whose text around a hex token is fixed. */
  lemma GroupTextAroundToken(p: string, h: string, q: string)
    requires |h| >= 3 && forall i :: 0 <= i < |h| ==> IsHex(LowerChar(h[i]))
    requires p == [] || !IsHex(LowerChar(p[|p| - 1]))
    requires q == [] || !IsHex(LowerChar(q[0]))
    ensures GroupText(p + h + q) == LettersOnly(StripHex(Lower(p))) + " " + LettersOnly(StripHex(Lower(q)))
  {
    var lp, lh, lq := Lower(p), Lower(h), Lower(q);
    LowerAppend(p + h, q);
    LowerAppend(p, h);
    assert Lower(p + h + q) == lp + (lh + lq);
    StripHexAppend(lp, lh + lq);
    StripHexRun(lh, lq);
    var sp, sq := StripHex(lp), StripHex(lq);
    assert StripHex(Lower(p + h + q)) == sp + (" " + sq);
    LettersOnlyAppend(sp, " " + sq);
    LettersOnlyAppend(" ", sq);
    assert LettersOnly(" ") == " ";
  }

  /**
   * Two descriptions that differ only in a maximal hex token of length three
   * or more (after lower-casing) get the same group key (utils.py:76-78).
   */
  lemma HexTokenInvariance(digest: string -> string, p: string, h1: string, h2: string, q: string)
    requires |h1| >= 3 && forall i :: 0 <= i < |h1| ==> IsHex(LowerChar(h1[i]))
    requires |h2| >= 3 && forall i :: 0 <= i < |h2| ==> IsHex(LowerChar(h2[i]))
    requires p == [] || !IsHex(LowerChar(p[|p| - 1]))
    requires q == [] || !IsHex(LowerChar(q[0]))
    ensures GroupText(p + h1 + q) == GroupText(p + h2 + q)
    ensures GroupKey(digest, p + h1 + q) == GroupKey(digest, p + h2 + q)
  {
    GroupTextAroundToken(p, h1, q);
    GroupTextAroundToken(p, h2, q);
  }
}
