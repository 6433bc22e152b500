/**
 * The `java.lang.String` and `Boolean` operations the dialog relies on:
 * `trim`, `equalsIgnoreCase`, `Boolean.valueOf`, `String.valueOf(boolean)`,
 * `replace` of one character, and `split` on a character class.
 */
module JavaStrings {
  import opened Wrappers

  // ---------------------------------------------------------------- trim

  /** `String.trim` removes every character at or below U+0020 from both ends. */
  predicate IsBlank(c: char) {
    c <= ' '
  }

  predicate NoBlankEnds(s: string) {
    s == [] || (!IsBlank(s[0]) && !IsBlank(s[|s| - 1]))
  }

  function TrimStart(s: string): (r: string)
    ensures |r| <= |s| && r == s[|s| - |r|..]
    ensures forall i :: 0 <= i < |s| - |r| ==> IsBlank(s[i])
    ensures r == [] || !IsBlank(r[0])
  {
    if |s| > 0 && IsBlank(s[0]) then TrimStart(s[1..]) else s
  }

  function TrimEnd(s: string): (r: string)
    ensures |r| <= |s| && r == s[..|r|]
    ensures forall i :: |r| <= i < |s| ==> IsBlank(s[i])
    ensures r == [] || !IsBlank(r[|r| - 1])
    ensures r != [] ==> r[0] == s[0]
  {
    if |s| > 0 && IsBlank(s[|s| - 1]) then TrimEnd(s[..|s| - 1]) else s
  }

  /** `String.trim`. */
  function Trim(s: string): (r: string)
    ensures NoBlankEnds(r)
    ensures |r| <= |s|
  {
    TrimEnd(TrimStart(s))
  }

  lemma TrimStartKeeps(s: string)
    requires s == [] || !IsBlank(s[0])
    ensures TrimStart(s) == s
  {
  }

  lemma TrimEndKeeps(s: string)
    requires s == [] || !IsBlank(s[|s| - 1])
    ensures TrimEnd(s) == s
  {
  }

  /** Text without blank ends is left as typed. */
  lemma TrimKeeps(s: string)
    requires NoBlankEnds(s)
    ensures Trim(s) == s
  {
    TrimStartKeeps(s);
    TrimEndKeeps(s);
  }

  /** Trimming twice is trimming once. */
  lemma TrimIdempotent(s: string)
    ensures Trim(Trim(s)) == Trim(s)
  {
    TrimKeeps(Trim(s));
  }

  predicate AllBlank(s: string) {
    forall i :: 0 <= i < |s| ==> IsBlank(s[i])
  }

  lemma {:induction false} TrimStartSkipsPad(pad: string, x: string)
    requires AllBlank(pad)
    ensures TrimStart(pad + x) == TrimStart(x)
  {
    if |pad| > 0 {
      assert (pad + x)[1..] == pad[1..] + x;
      TrimStartSkipsPad(pad[1..], x);
    } else {
      assert pad + x == x;
    }
  }

  lemma {:induction false} TrimEndSkipsPad(x: string, pad: string)
    requires AllBlank(pad)
    ensures TrimEnd(x + pad) == TrimEnd(x)
  {
    if |pad| > 0 {
      assert (x + pad)[..|x + pad| - 1] == x + pad[..|pad| - 1];
      TrimEndSkipsPad(x, pad[..|pad| - 1]);
    } else {
      assert x + pad == x;
    }
  }

  /** Trimming only removes blanks: the blank-free core of the text survives. */
  lemma TrimOfPadded(s: string, pad1: string, pad2: string)
    requires NoBlankEnds(s)
    requires AllBlank(pad1) && AllBlank(pad2)
    ensures Trim(pad1 + s + pad2) == s
  {
    assert pad1 + s + pad2 == pad1 + (s + pad2);
    TrimStartSkipsPad(pad1, s + pad2);
    if s == [] {
      assert s + pad2 == pad2 + [];
      TrimStartSkipsPad(pad2, []);
    } else {
      TrimStartKeeps(s + pad2);
      TrimEndSkipsPad(s, pad2);
      TrimEndKeeps(s);
    }
  }

  // ------------------------------------------------------- case folding

  /** Case folding restricted to ASCII letters. */
  function LowerAscii(c: char): char {
    if 'A' <= c <= 'Z' then ((c as int) + 32) as char else c
  }

  /** `String.equalsIgnoreCase` on a non-null argument. */
  predicate EqualsIgnoreCase(a: string, b: string) {
    |a| == |b| && forall i :: 0 <= i < |a| ==> LowerAscii(a[i]) == LowerAscii(b[i])
  }

  // ------------------------------------------------------------ booleans

  /** `String.valueOf(boolean)` / `Boolean.toString`. */
  function BoolText(b: bool): string {
    if b then "true" else "false"
  }

  /** `Boolean.valueOf(String)`: true exactly for a non-null "true" in any case. */
  function ParseBoolean(s: Option<string>): (r: bool)
    ensures r ==> s.Some? && |s.value| == 4
  {
    s.Some? && EqualsIgnoreCase(s.value, "true")
  }

  /** What `String.valueOf(boolean)` prints `Boolean.valueOf` reads back. */
  lemma BoolTextRoundTrip(b: bool)
    ensures ParseBoolean(Some(BoolText(b))) == b
  {
    if !b {
      assert LowerAscii(BoolText(b)[0]) != LowerAscii("true"[0]);
    }
  }

  // ------------------------------------------------- replace and split

  /** `s.replace(",", "")` for a one-character target: every `c` removed. */
  function RemoveAll(s: string, c: char): (r: string)
    ensures c !in r
    ensures |r| <= |s|
  {
    if |s| == 0 then []
    else if s[0] == c then RemoveAll(s[1..], c)
    else [s[0]] + RemoveAll(s[1..], c)
  }

  lemma RemoveAllAbsent(s: string, c: char)
    requires c !in s
    ensures RemoveAll(s, c) == s
  {
  }

  /** No character of `s` is one of `delims`. */
  predicate Free(s: string, delims: set<char>) {
    forall i :: 0 <= i < |s| ==> s[i] !in delims
  }

  /**
   * The pieces of `s` between delimiter characters, empty pieces included:
   * what Java's `split` produces before it drops trailing empty strings.
   */
  function Pieces(s: string, delims: set<char>): (r: seq<string>)
    ensures |r| >= 1
    ensures forall i :: 0 <= i < |r| ==> Free(r[i], delims)
  {
    if |s| == 0 then [""]
    else
      var rest := Pieces(s[1..], delims);
      if s[0] in delims then [""] + rest else [[s[0]] + rest[0]] + rest[1..]
  }

  /** `pieces` joined with `sep` between neighbours. */
  function Join(pieces: seq<string>, sep: char): string
    requires |pieces| >= 1
  {
    if |pieces| == 1 then pieces[0] else pieces[0] + [sep] + Join(pieces[1..], sep)
  }

  /** A delimiter-free text is one piece. */
  lemma {:induction false} PiecesOfFree(s: string, delims: set<char>)
    requires Free(s, delims)
    ensures Pieces(s, delims) == [s]
  {
    if |s| > 0 {
      PiecesOfFree(s[1..], delims);
      assert s == [s[0]] + s[1..];
    }
  }

  /** Splitting distributes over a delimiter occurrence. */
  lemma {:induction false} PiecesAtDelimiter(a: string, d: char, b: string, delims: set<char>)
    requires d in delims
    ensures Pieces(a + [d] + b, delims)
         == Pieces(a, delims)[..|Pieces(a, delims)| - 1]
            + [Pieces(a, delims)[|Pieces(a, delims)| - 1]]
            + Pieces(b, delims)
  {
    var s := a + [d] + b;
    if |a| == 0 {
      assert s[1..] == b;
    } else {
      assert s[1..] == a[1..] + [d] + b;
      PiecesAtDelimiter(a[1..], d, b, delims);
    }
  }

  /** Splitting what `Join` built on a delimiter gives the pieces back. */
  lemma {:induction false} PiecesOfJoin(pieces: seq<string>, sep: char, delims: set<char>)
    requires |pieces| >= 1 && sep in delims
    requires forall i :: 0 <= i < |pieces| ==> Free(pieces[i], delims)
    ensures Pieces(Join(pieces, sep), delims) == pieces
  {
    PiecesOfFree(pieces[0], delims);
    if |pieces| > 1 {
      PiecesOfJoin(pieces[1..], sep, delims);
      PiecesAtDelimiter(pieces[0], sep, Join(pieces[1..], sep), delims);
      assert pieces == [pieces[0]] + pieces[1..];
    }
  }

  /** `pieces` without its trailing empty strings. */
  function DropTrailingEmpty(pieces: seq<string>): (r: seq<string>)
    ensures |r| <= |pieces| && r == pieces[..|r|]
    ensures r == [] || r[|r| - 1] != ""
    ensures forall i :: |r| <= i < |pieces| ==> pieces[i] == ""
  {
    if |pieces| == 0 || pieces[|pieces| - 1] != "" then pieces
    else DropTrailingEmpty(pieces[..|pieces| - 1])
  }

  /**
   * `s.split(regex)` for a regex that matches exactly one character of
   * `delims`: when nothing matches the result is `[s]` itself; otherwise
   * the pieces with trailing empty strings removed.
   */
  function JavaSplit(s: string, delims: set<char>): seq<string> {
    if Free(s, delims) then [s] else DropTrailingEmpty(Pieces(s, delims))
  }
}
