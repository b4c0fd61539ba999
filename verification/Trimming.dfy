/** `String.prototype.trim`. */
module Trimming {

  /** White space and line terminators, as ECMAScript counts them. */
  predicate IsSpace(c: char) {
    var u := c as int;
    || 0x09 <= u <= 0x0d || u == 0x20 || u == 0xa0 || u == 0x1680 || 0x2000 <= u <= 0x200a
    || u == 0x2028 || u == 0x2029 || u == 0x202f || u == 0x205f || u == 0x3000 || u == 0xfeff
  }

  predicate IsWhite(s: string) {
    forall c | c in s :: IsSpace(c)
  }

  function TrimStart(s: string): string {
    if s != "" && IsSpace(s[0]) then TrimStart(s[1..]) else s
  }

  function TrimEnd(s: string): string {
    if s != "" && IsSpace(s[|s| - 1]) then TrimEnd(s[..|s| - 1]) else s
  }

  function Trimmed(s: string): string {
    TrimEnd(TrimStart(s))
  }

  predicate NoOuterSpace(s: string) {
    s != "" ==> !IsSpace(s[0]) && !IsSpace(s[|s| - 1])
  }

  /** Trimming takes white space off both ends and nothing else. */
  lemma TrimmedIsInside(s: string) returns (before: string, after: string)
    ensures s == before + Trimmed(s) + after
    ensures IsWhite(before) && IsWhite(after) && NoOuterSpace(Trimmed(s))
  {
    var rest := TrimStart(s);
    before := TrimmedStart(s);
    after := TrimmedEnd(rest);
    assert s == before + (TrimEnd(rest) + after) == before + Trimmed(s) + after;
  }

  lemma {:induction false} TrimmedStart(s: string) returns (before: string)
    ensures s == before + TrimStart(s) && IsWhite(before)
    ensures TrimStart(s) != "" ==> !IsSpace(TrimStart(s)[0])
  {
    if s != "" && IsSpace(s[0]) {
      var rest := TrimmedStart(s[1..]);
      before := [s[0]] + rest;
      assert s == [s[0]] + s[1..];
    } else {
      before := "";
    }
  }

  lemma {:induction false} TrimmedEnd(s: string) returns (after: string)
    ensures s == TrimEnd(s) + after && IsWhite(after)
    ensures TrimEnd(s) != "" ==> TrimEnd(s)[0] == s[0] && !IsSpace(TrimEnd(s)[|TrimEnd(s)| - 1])
  {
    if s != "" && IsSpace(s[|s| - 1]) {
      var front := TrimmedEnd(s[..|s| - 1]);
      after := front + [s[|s| - 1]];
      assert s == s[..|s| - 1] + [s[|s| - 1]];
    } else {
      after := "";
    }
  }

  lemma {:induction false} TrimStartSkips(white: string, s: string)
    requires IsWhite(white) && (s == "" || !IsSpace(s[0]))
    ensures TrimStart(white + s) == s
  {
    if white == "" {
      assert white + s == s;
    } else {
      assert white[0] in white && (white + s)[1..] == white[1..] + s;
      TrimStartSkips(white[1..], s);
    }
  }

  lemma {:induction false} TrimEndSkips(s: string, white: string)
    requires IsWhite(white) && (s == "" || !IsSpace(s[|s| - 1]))
    ensures TrimEnd(s + white) == s
  {
    if white == "" {
      assert s + white == s;
    } else {
      var n := |white| - 1;
      assert white[n] in white && (s + white)[..|s| + n] == s + white[..n];
      TrimEndSkips(s, white[..n]);
    }
  }

  /** So the trimmed text does not depend on the white space around it. */
  lemma WhiteIsTrimmed(before: string, s: string, after: string)
    requires IsWhite(before) && IsWhite(after) && s != "" && NoOuterSpace(s)
    ensures Trimmed(before + s + after) == s
  {
    assert before + s + after == before + (s + after);
    TrimStartSkips(before, s + after);
    TrimEndSkips(s, after);
  }

  lemma WhiteIsBlank(s: string)
    requires IsWhite(s)
    ensures Trimmed(s) == ""
  {
    TrimStartSkips(s, "");
    assert s + "" == s;
  }
}
