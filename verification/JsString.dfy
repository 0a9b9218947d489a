/** Trimming of JavaScript strings. */
module JsString {

  /** White space: what trim() removes and the regular-expression class \s matches. */
  predicate IsSpace(c: char) {
    var u := c as int;
    9 <= u <= 13 || u == 32 || u == 160 || u == 0x1680 || 0x2000 <= u <= 0x200a
    || u == 0x2028 || u == 0x2029 || u == 0x202f || u == 0x205f || u == 0x3000 || u == 0xfeff
  }

  /** Drop the longest run of such characters from the end. */
  function TrimEnd(s: string, p: char -> bool): string {
    if s != [] && p(s[|s| - 1]) then TrimEnd(s[..|s| - 1], p) else s
  }

  /** Drop the longest run of such characters from the front. */
  function TrimStart(s: string, p: char -> bool): (r: string)
    ensures r == [] || !p(r[0])
  {
    if s != [] && p(s[0]) then TrimStart(s[1..], p) else s
  }

  function Trim(s: string): string {
    TrimEnd(TrimStart(s, IsSpace), IsSpace)
  }

  predicate EndsWith(s: string, p: char -> bool) {
    s != [] && p(s[|s| - 1])
  }

  predicate All(s: string, p: char -> bool) {
    forall i :: 0 <= i < |s| ==> p(s[i])
  }

  lemma {:induction false} TrimEndPadding(base: string, pad: string, p: char -> bool)
    requires All(pad, p) && !EndsWith(base, p)
    ensures TrimEnd(base + pad, p) == base
    decreases |pad|
  {
    if pad == [] {
      assert base + pad == base;
    } else {
      assert (base + pad)[..|base + pad| - 1] == base + pad[..|pad| - 1];
      TrimEndPadding(base, pad[..|pad| - 1], p);
    }
  }

  lemma {:induction false} TrimEndSplits(s: string, p: char -> bool) returns (pad: string)
    ensures s == TrimEnd(s, p) + pad && All(pad, p) && !EndsWith(TrimEnd(s, p), p)
    decreases |s|
  {
    pad := [];
    if EndsWith(s, p) {
      var front := TrimEndSplits(s[..|s| - 1], p);
      pad := front + [s[|s| - 1]];
      var n := |s| - 1;
      assert s == s[..n] + [s[n]] == (TrimEnd(s[..n], p) + front) + [s[n]] == TrimEnd(s, p) + pad;
    }
  }

  lemma {:induction false} TrimStartPadding(pad: string, base: string, p: char -> bool)
    requires All(pad, p) && (base == [] || !p(base[0]))
    ensures TrimStart(pad + base, p) == base
    decreases |pad|
  {
    if pad == [] {
      assert pad + base == base;
    } else {
      assert (pad + base)[1..] == pad[1..] + base;
      TrimStartPadding(pad[1..], base, p);
    }
  }

  /** White space around a text is removed exactly, and none inside it. */
  lemma TrimRemovesPadding(before: string, base: string, after: string)
    requires All(before, IsSpace) && All(after, IsSpace)
    requires base == [] || (!IsSpace(base[0]) && !IsSpace(base[|base| - 1]))
    ensures Trim(before + base + after) == base
  {
    if base == [] {
      assert before + base + after == (before + after) + [];
      TrimStartPadding(before + after, [], IsSpace);
    } else {
      assert before + base + after == before + (base + after);
      TrimStartPadding(before, base + after, IsSpace);
      TrimEndPadding(base, after, IsSpace);
    }
  }

  lemma TrimTwice(s: string)
    ensures Trim(Trim(s)) == Trim(s)
  {
    var t := TrimStart(s, IsSpace);
    var pad := TrimEndSplits(t, IsSpace);
  }
}
