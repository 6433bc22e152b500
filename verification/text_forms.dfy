/**
 * The string normalisers of the dialog: the hidden-tag list (staged and
 * load-time forms), the proxy whitelist joiner, the default-font
 * description and the font style bits.
 */
module TextForms {
  import opened Wrappers
  import opened JavaStrings
  import opened JavaInts

  // ------------------------------------------------------ shared helpers

  /** The non-empty strings of `ps`, in order. */
  function NonEmpty(ps: seq<string>): (r: seq<string>)
    ensures forall i :: 0 <= i < |r| ==> r[i] != ""
    ensures forall i :: 0 <= i < |r| ==> r[i] in ps
    ensures |r| <= |ps|
  {
    if |ps| == 0 then [] else (if ps[0] == "" then [] else [ps[0]]) + NonEmpty(ps[1..])
  }

  lemma {:induction false} NonEmptyAppend(a: seq<string>, b: seq<string>)
    ensures NonEmpty(a + b) == NonEmpty(a) + NonEmpty(b)
  {
    if |a| > 0 {
      assert (a + b)[0] == a[0];
      assert (a + b)[1..] == a[1..] + b;
      NonEmptyAppend(a[1..], b);
      var h := if a[0] == "" then [] else [a[0]];
      assert NonEmpty(a + b) == h + NonEmpty(a[1..] + b);
      assert NonEmpty(a) == h + NonEmpty(a[1..]);
    } else {
      assert a + b == b;
    }
  }

  lemma {:induction false} NonEmptyKeeps(ps: seq<string>)
    requires forall i :: 0 <= i < |ps| ==> ps[i] != ""
    ensures NonEmpty(ps) == ps
  {
    if |ps| > 0 {
      NonEmptyKeeps(ps[1..]);
    }
  }

  lemma {:induction false} NonEmptyOfEmpties(ps: seq<string>)
    requires forall i :: 0 <= i < |ps| ==> ps[i] == ""
    ensures NonEmpty(ps) == []
  {
    if |ps| > 0 {
      NonEmptyOfEmpties(ps[1..]);
    }
  }

  /** Java's split drops only empty strings, so the non-empty pieces are the same. */
  lemma NonEmptyOfJavaSplit(s: string, delims: set<char>)
    ensures NonEmpty(JavaSplit(s, delims)) == NonEmpty(Pieces(s, delims))
  {
    var ps := Pieces(s, delims);
    if Free(s, delims) {
      PiecesOfFree(s, delims);
    } else {
      var kept := DropTrailingEmpty(ps);
      assert ps == kept + ps[|kept|..];
      NonEmptyAppend(kept, ps[|kept|..]);
      NonEmptyOfEmpties(ps[|kept|..]);
    }
  }

  lemma {:induction false} JoinSnoc(ps: seq<string>, p: string, sep: char)
    requires |ps| >= 1
    ensures Join(ps + [p], sep) == Join(ps, sep) + [sep] + p
  {
    if |ps| > 1 {
      assert (ps + [p])[1..] == ps[1..] + [p];
      JoinSnoc(ps[1..], p, sep);
    }
  }

  lemma {:induction false} JoinNonEmpty(ps: seq<string>, sep: char)
    requires |ps| >= 1 && ps[0] != ""
    ensures Join(ps, sep) != ""
  {
  }

  /** Joining pieces free of some characters yields a text free of them, if the separator is too. */
  lemma {:induction false} JoinFree(ps: seq<string>, sep: char, chars: set<char>)
    requires |ps| >= 1 && sep !in chars
    requires forall i :: 0 <= i < |ps| ==> Free(ps[i], chars)
    ensures Free(Join(ps, sep), chars)
  {
    if |ps| > 1 {
      JoinFree(ps[1..], sep, chars);
    }
  }

  // --------------------------------------------------------- hidden tags

  /** The hidden-tag field splits on the regex "[, ]". */
  const TagDelimiters: set<char> := {',', ' '}

  /** The tags a text names: its non-empty pieces between ',' and ' '. */
  function Tags(text: string): (r: seq<string>)
    ensures forall i :: 0 <= i < |r| ==> r[i] != "" && Free(r[i], TagDelimiters)
  {
    NonEmpty(Pieces(text, TagDelimiters))
  }

  /** Tags joined with ','; the empty list gives "". */
  function JoinTags(tags: seq<string>): string {
    if tags == [] then "" else Join(tags, ',')
  }

  /**
   * The accumulation loop shared by the hidden-tag handler and its
   * load-time form: every non-empty piece is appended to `clean`,
   * preceded by ',' unless `clean` is still empty.
   */
  function AppendTags(clean: string, pieces: seq<string>): string
    decreases |pieces|
  {
    if |pieces| == 0 then clean
    else if pieces[0] == "" then AppendTags(clean, pieces[1..])
    else AppendTags(clean + (if clean == "" then "" else ",") + pieces[0], pieces[1..])
  }

  /**
   * The text the hidden-tag field shows for the stored value: the stored
   * tags joined by ','; null shows as "".
   */
  function ShownTags(stored: Option<string>): (r: string)
    ensures r == JoinTags(Tags(stored.GetOr("")))
  {
    AppendSplitTags(stored.GetOr(""));
    AppendTags("", JavaSplit(stored.GetOr(""), TagDelimiters))
  }

  /** The value the hidden-tag handler stages: the field's tags joined by ',', then ','. */
  function StagedTags(text: string): (r: string)
    ensures r == JoinTags(Tags(text)) + ","
  {
    AppendSplitTags(text);
    AppendTags("", JavaSplit(text, TagDelimiters)) + ","
  }

  /** The accumulation loop over Java's split of a text collects exactly its tags. */
  lemma AppendSplitTags(s: string)
    ensures AppendTags("", JavaSplit(s, TagDelimiters)) == JoinTags(Tags(s))
  {
    AppendTagsJoins([], JavaSplit(s, TagDelimiters));
    NonEmptyOfJavaSplit(s, TagDelimiters);
    assert [] + NonEmpty(JavaSplit(s, TagDelimiters)) == Tags(s);
  }

  lemma {:induction false} AppendTagsJoins(tags: seq<string>, pieces: seq<string>)
    requires forall i :: 0 <= i < |tags| ==> tags[i] != ""
    ensures AppendTags(JoinTags(tags), pieces) == JoinTags(tags + NonEmpty(pieces))
    decreases |pieces|
  {
    if |pieces| == 0 {
      assert tags + NonEmpty(pieces) == tags;
    } else if pieces[0] == "" {
      AppendTagsJoins(tags, pieces[1..]);
      assert NonEmpty(pieces) == NonEmpty(pieces[1..]);
    } else {
      var p := pieces[0];
      var clean := JoinTags(tags);
      if tags == [] {
        assert clean + "" + p == JoinTags([p]);
        assert tags + [p] == [p];
      } else {
        JoinNonEmpty(tags, ',');
        JoinSnoc(tags, p, ',');
        assert clean + "," + p == JoinTags(tags + [p]);
      }
      AppendTagsJoins(tags + [p], pieces[1..]);
      assert tags + [p] + NonEmpty(pieces[1..]) == tags + NonEmpty(pieces);
    }
  }

  /** A list of tags re-split on ',' gives the same tags. */
  lemma TagsOfJoin(tags: seq<string>)
    requires forall i :: 0 <= i < |tags| ==> tags[i] != "" && Free(tags[i], TagDelimiters)
    ensures Tags(JoinTags(tags)) == tags
    ensures Tags(JoinTags(tags) + ",") == tags
  {
    if tags == [] {
      assert Pieces(",", TagDelimiters) == ["", ""] by {
        assert ","[1..] == "";
      }
      NonEmptyOfEmpties(["", ""]);
      assert JoinTags(tags) + "," == ",";
    } else {
      TagsOfJoinNonEmpty(tags);
    }
  }

  lemma TagsOfJoinNonEmpty(tags: seq<string>)
    requires tags != []
    requires forall i :: 0 <= i < |tags| ==> tags[i] != "" && Free(tags[i], TagDelimiters)
    ensures Tags(JoinTags(tags)) == tags
    ensures Tags(JoinTags(tags) + ",") == tags
  {
    var j := JoinTags(tags);
    PiecesOfJoin(tags, ',', TagDelimiters);
    NonEmptyKeeps(tags);
    PiecesThenComma(j, tags);
    NonEmptyAppend(tags, [""]);
    NonEmptyOfEmpties([""]);
  }

  /** A final ',' adds one empty piece. */
  lemma PiecesThenComma(j: string, ps: seq<string>)
    requires Pieces(j, TagDelimiters) == ps
    ensures Pieces(j + ",", TagDelimiters) == ps + [""]
  {
    PiecesAtDelimiter(j, ',', "", TagDelimiters);
    assert j + [','] + "" == j + ",";
    assert ps[..|ps| - 1] + [ps[|ps| - 1]] == ps;
  }

  /** A text has no tags exactly when it consists of ',' and ' ' only. */
  lemma {:induction false} NoTagsIffBlank(text: string)
    ensures Tags(text) == [] <==> forall i :: 0 <= i < |text| ==> text[i] in TagDelimiters
  {
    if |text| > 0 {
      NoTagsIffBlank(text[1..]);
      var rest := Pieces(text[1..], TagDelimiters);
      if text[0] in TagDelimiters {
        assert Pieces(text, TagDelimiters) == [""] + rest;
        assert forall i :: 1 <= i < |text| ==> text[i] == text[1..][i - 1];
      } else {
        assert Pieces(text, TagDelimiters)[0] != "";
      }
    }
  }

  /**
   * The staged hidden-tag value: the field's tags, in order and with
   * repeats kept, each followed by ','. It never holds a space or an empty
   * tag, it is "," exactly for a text of commas and spaces, and it is the
   * load-time form of the same text plus ','.
   */
  lemma HiddenTagsStaged(text: string)
    ensures StagedTags(text) == JoinTags(Tags(text)) + ","
    ensures StagedTags(text) == ShownTags(Some(text)) + ","
    ensures StagedTags(text)[|StagedTags(text)| - 1] == ','
    ensures ' ' !in StagedTags(text)
    ensures Tags(StagedTags(text)) == Tags(text)
    ensures StagedTags(text) == "," <==> forall i :: 0 <= i < |text| ==> text[i] in TagDelimiters
  {
    var tags := Tags(text);
    TagsOfJoin(tags);
    NoTagsIffBlank(text);
    if tags != [] {
      JoinFree(tags, ',', {' '});
      JoinNonEmpty(tags, ',');
      var r := StagedTags(text);
      assert forall i :: 0 <= i < |r| - 1 ==> r[i] == JoinTags(tags)[i];
    }
  }

  /** Text made of one delimiter followed by `s` splits into an empty piece and the pieces of `s`. */
  lemma PiecesLeadingDelimiter(d: char, s: string, delims: set<char>)
    requires d in delims
    ensures Pieces([d] + s, delims) == [""] + Pieces(s, delims)
  {
    assert ([d] + s)[1..] == s;
  }

  /** The text "a, b ,,c" built up from its characters. */
  function DropBlanksText(a: string, b: string, c: string): string {
    a + [','] + ([' '] + (b + [' '] + ([','] + ([','] + c))))
  }

  lemma DropBlanksPieces(a: string, b: string, c: string)
    requires Free(a, TagDelimiters) && Free(b, TagDelimiters) && Free(c, TagDelimiters)
    ensures Pieces(DropBlanksText(a, b, c), TagDelimiters) == [a, "", b, "", "", c]
  {
    var s4 := [','] + c;
    var s3 := [','] + s4;
    var s2 := b + [' '] + s3;
    var s1 := [' '] + s2;
    assert Pieces(s4, TagDelimiters) == ["", c] by {
      PiecesOfFree(c, TagDelimiters);
      PiecesLeadingDelimiter(',', c, TagDelimiters);
    }
    assert Pieces(s3, TagDelimiters) == ["", "", c] by {
      PiecesLeadingDelimiter(',', s4, TagDelimiters);
    }
    assert Pieces(s2, TagDelimiters) == [b, "", "", c] by {
      PiecesOfFree(b, TagDelimiters);
      PiecesAtDelimiter(b, ' ', s3, TagDelimiters);
    }
    assert Pieces(s1, TagDelimiters) == ["", b, "", "", c] by {
      PiecesLeadingDelimiter(' ', s2, TagDelimiters);
    }
    PiecesOfFree(a, TagDelimiters);
    PiecesAtDelimiter(a, ',', s1, TagDelimiters);
  }

  /** `NonEmpty` keeps a non-empty head and drops an empty one. */
  lemma NonEmptyCons(x: string, rest: seq<string>)
    ensures NonEmpty([x] + rest) == (if x == "" then [] else [x]) + NonEmpty(rest)
  {
    assert ([x] + rest)[0] == x && ([x] + rest)[1..] == rest;
  }

  /** The blanks between and after the tags of "a, b ,,c" drop out. */
  lemma DropBlanksTail(b: string, c: string)
    requires b != "" && c != ""
    ensures NonEmpty([b, "", "", c]) == [b, c]
  {
    NonEmptyCons(c, []);
    NonEmptyCons("", [c]);
    NonEmptyCons("", ["", c]);
    NonEmptyCons(b, ["", "", c]);
    assert [b, "", "", c] == [b] + ["", "", c];
    assert ["", "", c] == [""] + ["", c];
    assert ["", c] == [""] + [c];
    assert [c] == [c] + [];
  }

  lemma DropBlanksNonEmpty(a: string, b: string, c: string)
    requires a != "" && b != "" && c != ""
    ensures NonEmpty([a, "", b, "", "", c]) == [a, b, c]
  {
    DropBlanksTail(b, c);
    NonEmptyCons("", [b, "", "", c]);
    NonEmptyCons(a, ["", b, "", "", c]);
    assert [a, "", b, "", "", c] == [a] + ["", b, "", "", c];
    assert ["", b, "", "", c] == [""] + [b, "", "", c];
  }

  /**
   * Blanks and empty tags are dropped and the tags re-joined with ','
   * behind a final ',': "NM, MD ,,XS" stages "NM,MD,XS,".
   */
  lemma HiddenTagsDropBlanks(a: string, b: string, c: string)
    requires a != "" && b != "" && c != ""
    requires Free(a, TagDelimiters) && Free(b, TagDelimiters) && Free(c, TagDelimiters)
    ensures StagedTags(a + ", " + b + " ,," + c) == a + "," + b + "," + c + ","
  {
    var text := a + ", " + b + " ,," + c;
    assert text == DropBlanksText(a, b, c);
    assert Tags(text) == [a, b, c] by {
      DropBlanksPieces(a, b, c);
      DropBlanksNonEmpty(a, b, c);
    }
    assert JoinTags([a, b, c]) == a + [','] + (b + [','] + c) by {
      var t := [a, b, c];
      assert t[1..] == [b, c] && [b, c][1..] == [c];
      assert Join([c], ',') == c;
      assert Join([b, c], ',') == b + [','] + c;
      assert Join(t, ',') == a + [','] + Join([b, c], ',');
    }
    HiddenTagsStaged(text);
    assert a + [','] + (b + [','] + c) + "," == a + "," + b + "," + c + ",";
  }

  /** A repeated tag is kept: "NM NM" stages "NM,NM,". */
  lemma HiddenTagsKeepRepeats(t: string)
    requires t != "" && Free(t, TagDelimiters)
    ensures StagedTags(t + " " + t) == t + "," + t + ","
  {
    PiecesOfFree(t, TagDelimiters);
    PiecesAtDelimiter(t, ' ', t, TagDelimiters);
    assert t + [' '] + t == t + " " + t;
    NonEmptyKeeps([t, t]);
    HiddenTagsStaged(t + " " + t);
    assert Join([t, t], ',') == t + "," + t;
  }

  /** Staging the staged form again changes nothing. */
  lemma HiddenTagsIdempotent(text: string)
    ensures StagedTags(StagedTags(text)) == StagedTags(text)
  {
    HiddenTagsStaged(text);
    HiddenTagsStaged(StagedTags(text));
  }

  /** Re-staging what the field shows after loading gives the stored value's staged form. */
  lemma HiddenTagsLoadThenStage(stored: string)
    ensures StagedTags(ShownTags(Some(stored))) == StagedTags(stored)
  {
    var tags := Tags(stored);
    TagsOfJoin(tags);
    HiddenTagsStaged(ShownTags(Some(stored)));
    HiddenTagsStaged(stored);
  }

  // ----------------------------------------------------- proxy whitelist

  /** Every piece followed by ','. */
  function AppendEach(pieces: seq<string>): string {
    if |pieces| == 0 then "" else pieces[0] + "," + AppendEach(pieces[1..])
  }

  /** The proxy whitelist handler's loop: the text split on newlines, each piece followed by ','. */
  function SplitAndAppend(text: string): string {
    AppendEach(JavaSplit(text, {'\n'}))
  }

  /** The value the proxy whitelist handler stages, which is the reference form of its text. */
  function Whitelist(text: string): (r: string)
    ensures r == WhitelistReference(text)
  {
    WhitelistMatchesReference(text);
    SplitAndAppend(text)
  }

  /** `s` with every `from` replaced by `to`. */
  function Replace(s: string, from: char, to: char): (r: string)
    ensures |r| == |s|
    ensures forall i :: 0 <= i < |s| ==> r[i] == if s[i] == from then to else s[i]
  {
    if |s| == 0 then [] else [if s[0] == from then to else s[0]] + Replace(s[1..], from, to)
  }

  /** `s` without its trailing `c` characters. */
  function TrimTrailing(s: string, c: char): (r: string)
    ensures |r| <= |s| && r == s[..|r|]
    ensures r == [] || r[|r| - 1] != c
  {
    if |s| > 0 && s[|s| - 1] == c then TrimTrailing(s[..|s| - 1], c) else s
  }

  /**
   * What the whitelist handler stages, stated without `split`: a text
   * without newlines gains one ','; a text of newlines only becomes "";
   * otherwise trailing newlines are dropped and every remaining newline
   * becomes ',', plus a final ','.
   */
  function WhitelistReference(text: string): string {
    if '\n' !in text then text + ","
    else if TrimTrailing(text, '\n') == "" then ""
    else Replace(TrimTrailing(text, '\n'), '\n', ',') + ","
  }

  lemma {:induction false} AppendEachJoin(ps: seq<string>)
    requires |ps| >= 1
    ensures AppendEach(ps) == Join(ps, ',') + ","
  {
    if |ps| > 1 {
      AppendEachJoin(ps[1..]);
    }
  }

  lemma {:induction false} JoinPiecesReplaces(s: string, d: char, c: char)
    ensures Join(Pieces(s, {d}), c) == Replace(s, d, c)
  {
    if |s| > 0 {
      JoinPiecesReplaces(s[1..], d, c);
      var rest := Pieces(s[1..], {d});
      if s[0] != d {
        if |rest| > 1 {
          assert Join(rest, c) == rest[0] + [c] + Join(rest[1..], c);
          assert ([s[0]] + rest[0]) + [c] + Join(rest[1..], c) == [s[0]] + Join(rest, c);
        }
      }
    }
  }

  /** The last piece is empty exactly when the text is empty or ends in a delimiter. */
  lemma {:induction false} LastPieceNonEmpty(s: string, delims: set<char>)
    requires s != [] && s[|s| - 1] !in delims
    ensures Pieces(s, delims)[|Pieces(s, delims)| - 1] != ""
  {
    if |s| > 1 {
      LastPieceNonEmpty(s[1..], delims);
    }
  }

  lemma DropTrailingOfSnocEmpty(ps: seq<string>)
    ensures DropTrailingEmpty(ps + [""]) == DropTrailingEmpty(ps)
  {
    assert (ps + [""])[..|ps|] == ps;
  }

  lemma {:induction false} WhitelistMatchesReference(text: string)
    ensures SplitAndAppend(text) == WhitelistReference(text)
    decreases |text|
  {
    var nl: set<char> := {'\n'};
    assert Free(text, nl) <==> '\n' !in text;
    if '\n' !in text {
      assert JavaSplit(text, nl) == [text];
      assert AppendEach([text]) == text + "," + AppendEach([]);
    } else if text[|text| - 1] == '\n' {
      WhitelistTrailingNewline(text);
    } else {
      LastPieceNonEmpty(text, nl);
      var ps := Pieces(text, nl);
      assert DropTrailingEmpty(ps) == ps;
      assert JavaSplit(text, nl) == ps;
      AppendEachJoin(ps);
      JoinPiecesReplaces(text, '\n', ',');
      assert TrimTrailing(text, '\n') == text;
    }
  }

  lemma {:induction false} WhitelistTrailingNewline(text: string)
    requires text != [] && text[|text| - 1] == '\n'
    ensures SplitAndAppend(text) == WhitelistReference(text)
    decreases |text|, 0
  {
    var nl: set<char> := {'\n'};
    var u := text[..|text| - 1];
    WhitelistDropsLastNewline(text);
    ReferenceDropsLastNewline(text);
    if '\n' in u {
      WhitelistMatchesReference(u);
      assert !Free(u, nl);
    } else if u == "" {
      assert Pieces(u, nl) == [""];
      assert DropTrailingEmpty([""]) == [];
    } else {
      WhitelistOfOneLine(u);
    }
  }

  /** A non-empty line without newlines: one piece, kept as it is, plus ','. */
  lemma WhitelistOfOneLine(u: string)
    requires u != "" && '\n' !in u
    ensures AppendEach(DropTrailingEmpty(Pieces(u, {'\n'}))) == u + ","
    ensures TrimTrailing(u, '\n') == u && Replace(u, '\n', ',') == u
  {
    assert Free(u, {'\n'});
    PiecesOfFree(u, {'\n'});
    assert DropTrailingEmpty([u]) == [u];
    assert AppendEach([u]) == u + "," + AppendEach([]);
    assert u[|u| - 1] in u;
  }

  /** The whitelist of a text ending in a newline is built from the pieces of the text before it. */
  lemma WhitelistDropsLastNewline(text: string)
    requires text != [] && text[|text| - 1] == '\n'
    ensures SplitAndAppend(text) == AppendEach(DropTrailingEmpty(Pieces(text[..|text| - 1], {'\n'})))
  {
    var nl: set<char> := {'\n'};
    var u := text[..|text| - 1];
    assert text == u + ['\n'] + "";
    PiecesAtDelimiter(u, '\n', "", nl);
    assert Pieces(text, nl) == Pieces(u, nl) + [""];
    DropTrailingOfSnocEmpty(Pieces(u, nl));
    assert !Free(text, nl);
  }

  /** The reference form ignores a final newline of a text holding a newline. */
  lemma ReferenceDropsLastNewline(text: string)
    requires text != [] && text[|text| - 1] == '\n'
    ensures var u := text[..|text| - 1];
            WhitelistReference(text)
            == if TrimTrailing(u, '\n') == "" then "" else Replace(TrimTrailing(u, '\n'), '\n', ',') + ","
  {
    assert text[|text| - 1] in text;
    assert TrimTrailing(text, '\n') == TrimTrailing(text[..|text| - 1], '\n');
  }

  /** Consequences of the reference form: an empty text stages ",", a lone newline stages "". */
  lemma WhitelistEdgeCases()
    ensures Whitelist("") == ","
    ensures Whitelist("\n") == ""
    ensures Whitelist("a\nb\n") == "a,b,"
  {
    assert Whitelist("\n") == "" by {
      assert "\n"[..0] == "";
      assert TrimTrailing("\n", '\n') == "";
    }
    assert Whitelist("a\nb\n") == "a,b," by {
      assert "a\nb\n"[..3] == "a\nb";
      assert TrimTrailing("a\nb\n", '\n') == "a\nb";
      var r := Replace("a\nb", '\n', ',');
      assert r[0] == 'a' && r[1] == ',' && r[2] == 'b';
      assert r == "a,b";
    }
  }

  // ---------------------------------------------------------------- fonts

  /** The default display font as `FontManager` reports it. */
  datatype Font = Font(family: string, bold: bool, italic: bool, size: int)

  /** `java.awt.Font` style constants. */
  const Plain: bv8 := 0
  const Bold: bv8 := 1
  const Italic: bv8 := 2

  /** `Font.isBold` / `Font.isItalic` on a style value. */
  predicate HasStyle(style: int, bit: bv8)
    requires 0 <= style < 256
  {
    (style as bv8) & bit != 0
  }

  /**
   * The style attribute the font chooser stores: PLAIN, replaced by BOLD
   * for a bold font, with ITALIC or-ed in for an italic one. The stored
   * number gives back both flags.
   */
  function StyleBits(bold: bool, italic: bool): (r: int)
    ensures 0 <= r <= 3
    ensures HasStyle(r, Bold) == bold
    ensures HasStyle(r, Italic) == italic
  {
    var attrs := if bold then Bold else Plain;
    (if italic then attrs | Italic else attrs) as int
  }

  /**
   * The default-font field: family, " bold", " italic", then " " and the
   * point size. Read back after the family name, it gives the font.
   */
  function Describe(f: Font): (r: string)
    ensures IsInt32(f.size) ==> ParseDescription(f.family, r) == Some(f)
  {
    DescriptionParses(f);
    f.family + (if f.bold then " bold" else "") + (if f.italic then " italic" else "")
      + " " + FormatInt(f.size)
  }

  predicate HasPrefix(s: string, p: string) {
    |p| <= |s| && s[..|p|] == p
  }

  /** Reads a description back, given the family it starts with. */
  function ParseDescription(family: string, d: string): Option<Font> {
    if !HasPrefix(d, family) then None else ParseStyles(family, d[|family|..])
  }

  /** Reads " bold", " italic" and " <size>" after the family name. */
  function ParseStyles(family: string, rest: string): Option<Font> {
    var bold := HasPrefix(rest, " bold");
    var r1 := if bold then rest[5..] else rest;
    var italic := HasPrefix(r1, " italic");
    var r2 := if italic then r1[7..] else r1;
    ParseSize(family, bold, italic, r2)
  }

  function ParseSize(family: string, bold: bool, italic: bool, tail: string): Option<Font> {
    if !HasPrefix(tail, " ") then None
    else
      match ParseInt(tail[1..])
      case Some(n) => Some(Font(family, bold, italic, n))
      case None => None
  }

  lemma SizeTail(size: int)
    requires IsInt32(size)
    ensures var tail := " " + FormatInt(size);
            && HasPrefix(tail, " ") && ParseInt(tail[1..]) == Some(size)
            && !HasPrefix(tail, " bold") && !HasPrefix(tail, " italic")
  {
    var num := FormatInt(size);
    var tail := " " + num;
    assert HasPrefix(tail, " ") && ParseInt(tail[1..]) == Some(size) by {
      ParseFormatRoundTrip(size);
      assert tail[1..] == num;
    }
    assert tail[1] != 'b' && tail[1] != 'i' by {
      assert tail[1] == num[0];
      assert num[0] == '-' || IsDigit(num[0]);
    }
    DiffersAt(tail, " bold", 1);
    DiffersAt(tail, " italic", 1);
  }

  /** A text that differs from `p` at some index of `p` does not start with `p`. */
  lemma DiffersAt(s: string, p: string, i: nat)
    requires i < |p| && i < |s| && s[i] != p[i]
    ensures !HasPrefix(s, p)
  {
  }

  lemma StylesThenTail(bold: bool, italic: bool, tail: string)
    requires !HasPrefix(tail, " bold") && !HasPrefix(tail, " italic")
    ensures var rest := (if bold then " bold" else "") + (if italic then " italic" else "") + tail;
            var r1 := if HasPrefix(rest, " bold") then rest[5..] else rest;
            && HasPrefix(rest, " bold") == bold
            && HasPrefix(r1, " italic") == italic
            && (if italic then r1[7..] else r1) == tail
  {
    var it := (if italic then " italic" else "") + tail;
    assert !HasPrefix(it, " bold") by {
      if italic {
        assert it[1] == 'i';
      }
    }
    if italic {
      assert it[..7] == " italic";
      assert it[7..] == tail;
    }
    if bold {
      var rest := " bold" + it;
      assert rest[..5] == " bold";
      assert rest[5..] == it;
      assert (if bold then " bold" else "") + (if italic then " italic" else "") + tail == rest;
    } else {
      assert (if bold then " bold" else "") + (if italic then " italic" else "") + tail == it;
    }
  }

  /** The description, spelled out, parses back to the font. */
  lemma DescriptionParses(f: Font)
    ensures IsInt32(f.size) ==>
              ParseDescription(f.family, f.family + (if f.bold then " bold" else "")
                                         + (if f.italic then " italic" else "") + " " + FormatInt(f.size))
              == Some(f)
  {
    if IsInt32(f.size) {
      DescriptionParsesInt32(f);
    }
  }

  lemma DescriptionParsesInt32(f: Font)
    requires IsInt32(f.size)
    ensures ParseDescription(f.family, f.family + (if f.bold then " bold" else "")
                                       + (if f.italic then " italic" else "") + " " + FormatInt(f.size))
            == Some(f)
  {
    var num := FormatInt(f.size);
    var tail := " " + num;
    SizeTail(f.size);
    assert ParseSize(f.family, f.bold, f.italic, tail) == Some(f);
    StylesThenTail(f.bold, f.italic, tail);
    var b := if f.bold then " bold" else "";
    var i := if f.italic then " italic" else "";
    var rest := b + i + tail;
    assert ParseStyles(f.family, rest) == Some(f);
    var d := f.family + b + i + " " + num;
    Regroup(f.family, b, i, " ", num);
    PrefixSplit(f.family, rest);
  }

  lemma Regroup(a: string, b: string, c: string, d: string, e: string)
    ensures a + b + c + d + e == a + (b + c + (d + e))
  {
  }

  lemma PrefixSplit(a: string, b: string)
    ensures HasPrefix(a + b, a) && (a + b)[|a|..] == b
  {
    assert (a + b)[..|a|] == a;
  }

  /** Two fonts of one family with the same description are the same font. */
  lemma DescribeInjective(f: Font, g: Font)
    requires IsInt32(f.size) && IsInt32(g.size) && f.family == g.family
    requires Describe(f) == Describe(g)
    ensures f == g
  {
  }
}
