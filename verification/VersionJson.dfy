/** The text of a version.json: the object of strings that packager writes, and how an agent that
    reads only the first bytes of the file sees it. */
module VersionJson {
  import opened Wrappers
  import opened Text

  type Fields = seq<(string, string)>

  const QUOTE := "\""
  const OPENING := "{\n    "
  const COLON := ": "
  const COMMA := ",\n    "
  const CLOSING := "\n}\n"

  /** Printable ASCII that JSON neither escapes nor refuses in a string. */
  predicate PlainText(s: string) {
    forall i :: 0 <= i < |s| ==> ' ' <= s[i] <= '~' && s[i] != '\"' && s[i] != '\\'
  }

  ghost predicate PlainFields(fs: Fields) {
    forall i :: 0 <= i < |fs| ==> PlainText(fs[i].0) && PlainText(fs[i].1)
  }

  // ---------- writing ----------

  function Entry(field: (string, string)): string {
    field.0 + QUOTE + COLON + QUOTE + field.1 + QUOTE
  }

  function Entries(fs: Fields): string {
    if fs == [] then ""
    else Entry(fs[0]) + if |fs| == 1 then CLOSING else COMMA + QUOTE + Entries(fs[1..])
  }

  /** One indented line per field, as packager writes them. */
  function PrintObject(fs: Fields): string {
    OPENING + QUOTE + Entries(fs)
  }

  // ---------- reading ----------

  predicate IsBlank(c: char) {
    c == ' ' || c == '\t' || c == '\n' || c == '\r'
  }

  /** What stands between two strings, without JSON white space. */
  function Squeeze(s: string): string {
    if s == "" then "" else (if IsBlank(s[0]) then "" else [s[0]]) + Squeeze(s[1..])
  }

  /** The pieces between quotes: name, colon, value, comma, and so on to the closing brace. */
  function ReadFields(ps: seq<string>): Option<Fields> {
    if |ps| < 4 || !PlainText(ps[0]) || Squeeze(ps[1]) != ":" || !PlainText(ps[2]) then None
    else if |ps| == 4 then (if Squeeze(ps[3]) == "}" then Some([(ps[0], ps[2])]) else None)
    else if Squeeze(ps[3]) != "," then None
    else match ReadFields(ps[4..])
      case None => None
      case Some(fs) => Some([(ps[0], ps[2])] + fs)
  }

  /** The fields of an object whose names and values are plain strings; None for every other text. */
  function ReadObject(text: string): Option<Fields> {
    ReadPieces(SplitOn(text, QUOTE))
  }

  function ReadPieces(ps: seq<string>): Option<Fields>
    requires ps != []
  {
    if |ps| == 1 then (if Squeeze(ps[0]) == "{}" then Some([]) else None)
    else if Squeeze(ps[0]) != "{" then None
    else ReadFields(ps[1..])
  }

  /** Between its strings the text is blank or opens an object, and no brace closes it. */
  predicate UnclosedPieces(ps: seq<string>)
    requires ps != []
  {
    var start := Squeeze(ps[0]);
    && (if start == "" then |ps| == 1 else start[0] == '{')
    && forall i :: 0 <= i < |ps| && i % 2 == 0 ==> '}' !in ps[i]
  }

  /** Surely no JSON: without backslashes, every other quote ends a string. */
  predicate Unclosed(text: string) {
    '\\' !in text && UnclosedPieces(SplitOn(text, QUOTE))
  }

  /** fh.read(limit). */
  function Take(text: string, limit: nat): string {
    if limit <= |text| then text[..limit] else text
  }

  /** The value of a name; the last one counts, an absent one reads as "". */
  function Get(fs: Fields, name: string): string {
    if fs == [] then ""
    else if fs[|fs| - 1].0 == name then fs[|fs| - 1].1
    else Get(fs[..|fs| - 1], name)
  }

  // ---------- the pieces between the quotes ----------

  function PiecesTo(fs: Fields, end: string): (r: seq<string>)
    ensures |r| == 4 * |fs|
  {
    if fs == [] then [] else [fs[0].0, COLON, fs[0].1, if |fs| == 1 then end else COMMA] + PiecesTo(fs[1..], end)
  }

  function Pieces(fs: Fields): (r: seq<string>)
    ensures |r| == 4 * |fs|
  {
    PiecesTo(fs, CLOSING)
  }

  lemma JoinFour(a: string, b: string, c: string, d: string)
    ensures Join([a, b, c, d], QUOTE) == a + QUOTE + b + QUOTE + c + QUOTE + d
  {
    assert [a, b, c, d] == [a] + [b, c, d] && [b, c, d] == [b] + [c, d] && [c, d] == [c] + [d];
    JoinCons(a, [b, c, d], QUOTE);
    JoinCons(b, [c, d], QUOTE);
    JoinCons(c, [d], QUOTE);
  }

  lemma {:induction false} EntriesAreJoined(fs: Fields)
    ensures Entries(fs) == Join(Pieces(fs), QUOTE)
  {
    if fs != [] {
      var end := if |fs| == 1 then CLOSING else COMMA;
      var first := [fs[0].0, COLON, fs[0].1, end];
      JoinFour(fs[0].0, COLON, fs[0].1, end);
      if |fs| == 1 {
        assert first + [] == first;
      } else {
        EntriesAreJoined(fs[1..]);
        JoinAppend(first, Pieces(fs[1..]), QUOTE);
        assert Entry(fs[0]) + (COMMA + QUOTE + Entries(fs[1..])) == Entry(fs[0]) + COMMA + QUOTE + Entries(fs[1..]);
      }
    }
  }

  /** All pieces, the opening brace first. */
  function AllPieces(fs: Fields): seq<string> {
    [OPENING] + Pieces(fs)
  }

  lemma PrintedIsJoined(fs: Fields)
    requires fs != []
    ensures PrintObject(fs) == Join(AllPieces(fs), QUOTE)
  {
    EntriesAreJoined(fs);
    JoinCons(OPENING, Pieces(fs), QUOTE);
  }

  lemma PlainHasNoQuote(s: string)
    requires PlainText(s)
    ensures Free(s, QUOTE)
  {
    FreeOfChar(s, '\"');
  }

  lemma {:induction false} PiecesFree(fs: Fields)
    requires PlainFields(fs)
    ensures forall p :: p in Pieces(fs) ==> Free(p, QUOTE)
  {
    if fs != [] {
      FreeOfChar(COLON, '\"');
      FreeOfChar(CLOSING, '\"');
      FreeOfChar(COMMA, '\"');
      PlainHasNoQuote(fs[0].0);
      PlainHasNoQuote(fs[0].1);
      PiecesFree(fs[1..]);
    }
  }

  lemma AllPiecesFree(fs: Fields)
    requires PlainFields(fs)
    ensures forall p :: p in AllPieces(fs) ==> Free(p, QUOTE)
  {
    FreeOfChar(OPENING, '\"');
    PiecesFree(fs);
  }

  // ---------- a text cut off ----------

  /** Where a cut falls: in which piece, after how many of its characters. */
  ghost predicate CutIn(pieces: seq<string>, n: nat, k: nat, m: nat) {
    && k < |pieces| && m <= |pieces[k]|
    && (k == |pieces| - 1 ==> |Join(pieces, QUOTE)| - n == |pieces[k]| - m)
    && (k < |pieces| - 1 ==> |Join(pieces, QUOTE)| - n > |pieces[|pieces| - 1]|)
  }

  lemma {:induction false} JoinLength(pieces: seq<string>)
    requires |pieces| > 1
    ensures |Join(pieces, QUOTE)| == |pieces[0]| + 1 + |Join(pieces[1..], QUOTE)|
    ensures |Join(pieces, QUOTE)| - |pieces[0]| > |pieces[|pieces| - 1]|
  {
    if |pieces| > 2 {
      JoinLength(pieces[1..]);
    }
  }

  lemma FreePrefix(s: string, n: nat)
    requires Free(s, QUOTE) && n <= |s|
    ensures SplitOn(s[..n], QUOTE) == [s[..n]]
  {
    CharNotInFree(s, '\"');
    FreeOfChar(s[..n], '\"');
  }

  /** Splitting a cut text gives the pieces up to the cut. */
  lemma {:induction false} CutPieces(pieces: seq<string>, n: nat) returns (k: nat, m: nat)
    requires pieces != [] && (forall p :: p in pieces ==> Free(p, QUOTE)) && n <= |Join(pieces, QUOTE)|
    ensures CutIn(pieces, n, k, m)
    ensures SplitOn(Join(pieces, QUOTE)[..n], QUOTE) == pieces[..k] + [pieces[k][..m]]
  {
    var text, first := Join(pieces, QUOTE), pieces[0];
    assert first in pieces;
    if |pieces| > 1 {
      JoinLength(pieces);
    }
    if n <= |first| {
      k, m := 0, n;
      assert text[..n] == first[..n];
      FreePrefix(first, n);
      assert pieces[..0] + [first[..n]] == [first[..n]];
    } else {
      var more := pieces[1..];
      var k', m' := CutPieces(more, n - |first| - 1);
      k, m := k' + 1, m';
      assert text[..n] == first + QUOTE + Join(more, QUOTE)[..n - |first| - 1];
      SplitFirst(first, QUOTE, Join(more, QUOTE)[..n - |first| - 1]);
      assert pieces[..k] == [first] + more[..k'];
    }
  }

  // ---------- reading the pieces ----------

  /** Only whole fields, closed by a brace, are read. */
  lemma {:induction false} ReadNeedsBrace(ps: seq<string>)
    requires ReadFields(ps).Some?
    ensures |ps| >= 4 && |ps| % 4 == 0 && Squeeze(ps[|ps| - 1]) == "}"
  {
    if |ps| > 4 {
      ReadNeedsBrace(ps[4..]);
      assert ps[4..][|ps| - 5] == ps[|ps| - 1];
    }
  }

  lemma {:induction false} PieceAt(fs: Fields, j: nat)
    requires j < |fs|
    ensures Pieces(fs)[4 * j + 3] == if j == |fs| - 1 then CLOSING else COMMA
  {
    if j > 0 {
      PieceAt(fs[1..], j - 1);
      assert Pieces(fs)[4 * j + 3] == Pieces(fs[1..])[4 * (j - 1) + 3];
    }
  }

  lemma SqueezedParts()
    ensures Squeeze(OPENING) == "{" && Squeeze(COLON) == ":" && Squeeze(COMMA) == ","
  {
    assert OPENING[1..] == "\n    " && "\n    "[1..] == "    " && "    "[1..] == "   " && "   "[1..] == "  "
        && "  "[1..] == " " && " "[1..] == "";
    assert COLON[1..] == " " && COMMA[1..] == "\n    ";
    assert Squeeze(" ") == "" && Squeeze("  ") == "" && Squeeze("   ") == "" && Squeeze("    ") == "";
    assert Squeeze("\n    ") == "";
  }

  lemma SqueezedClosing(m: nat)
    requires m <= |CLOSING|
    ensures Squeeze(CLOSING[..m]) == "}" <==> m >= 2
  {
    if m == 1 {
      assert CLOSING[..1] == "\n";
    } else if m == 2 {
      assert CLOSING[..2] == "\n}" && "\n}"[1..] == "}" && "}"[1..] == "";
      assert Squeeze("}") == "}";
    } else if m == 3 {
      assert CLOSING[..3] == "\n}\n" && "\n}\n"[1..] == "}\n" && "}\n"[1..] == "\n" && "\n"[1..] == "";
      assert Squeeze("\n") == "";
      assert Squeeze("}\n") == "}";
    }
  }

  lemma {:induction false} NoBrace(s: string)
    requires '}' !in s
    ensures '}' !in Squeeze(s)
  {
    if s != "" {
      NoBrace(s[1..]);
    }
  }

  /** A cut before the last brace leaves no object. */
  lemma {:induction false} CutReadsNothing(fs: Fields, k: nat, m: nat)
    requires fs != [] && k <= 4 * |fs| && m <= |AllPieces(fs)[k]|
    requires k < 4 * |fs| || m < 2
    ensures var ps := AllPieces(fs)[..k] + [AllPieces(fs)[k][..m]];
            if k == 0 then Squeeze(ps[0]) != "{}" else ReadFields(ps[1..]).None?
  {
    var ps := AllPieces(fs)[..k] + [AllPieces(fs)[k][..m]];
    if k == 0 {
      NoBrace(ps[0]);
      assert ps[0] == OPENING[..m];
      assert "{}"[1] == '}';
    } else if ReadFields(ps[1..]).Some? {
      ReadNeedsBrace(ps[1..]);
      PieceAt(fs, k / 4 - 1);
      assert AllPieces(fs)[k] == Pieces(fs)[k - 1];
      CutEndIsOpen(fs, k, m);
    }
  }

  lemma CutEndIsOpen(fs: Fields, k: nat, m: nat)
    requires 0 < k <= 4 * |fs| && k % 4 == 0 && m <= |Pieces(fs)[k - 1]|
    requires k < 4 * |fs| || m < 2
    ensures Squeeze(Pieces(fs)[k - 1][..m]) != "}"
  {
    PieceAt(fs, k / 4 - 1);
    var end := Pieces(fs)[k - 1];
    if end == COMMA {
      NoBrace(COMMA[..m]);
      assert "}"[0] == '}';
    } else {
      SqueezedClosing(m);
    }
  }

  lemma ReadLast(name: string, value: string, end: string)
    requires PlainText(name) && PlainText(value) && Squeeze(end) == "}"
    ensures ReadFields([name, COLON, value, end]) == Some([(name, value)])
  {
    SqueezedParts();
  }

  lemma ReadFirst(name: string, value: string, more: seq<string>, fs: Fields)
    requires PlainText(name) && PlainText(value) && more != [] && ReadFields(more) == Some(fs)
    ensures ReadFields([name, COLON, value, COMMA] + more) == Some([(name, value)] + fs)
  {
    SqueezedParts();
    assert ([name, COLON, value, COMMA] + more)[4..] == more;
  }

  /** The pieces of whole fields are read back, with any text that closes them. */
  lemma {:induction false} WholeFieldsRead(fs: Fields, end: string)
    requires fs != [] && PlainFields(fs) && Squeeze(end) == "}"
    ensures ReadFields(PiecesTo(fs, end)) == Some(fs)
  {
    var name, value := fs[0].0, fs[0].1;
    if |fs| == 1 {
      ReadLast(name, value, end);
      assert PiecesTo(fs, end) == [name, COLON, value, end] && fs == [(name, value)];
    } else {
      WholeFieldsRead(fs[1..], end);
      ReadFirst(name, value, PiecesTo(fs[1..], end), fs[1..]);
      assert fs == [(name, value)] + fs[1..];
    }
  }

  lemma {:induction false} AnyEnd(fs: Fields, a: string, b: string)
    requires fs != []
    ensures PiecesTo(fs, a)[..4 * |fs| - 1] + [b] == PiecesTo(fs, b)
  {
    if |fs| > 1 {
      AnyEnd(fs[1..], a, b);
      var first := [fs[0].0, COLON, fs[0].1, COMMA];
      assert PiecesTo(fs, a)[..4 * |fs| - 1] == first + PiecesTo(fs[1..], a)[..4 * |fs[1..]| - 1];
    }
  }

  /** Between strings, only the last piece has the brace. */
  lemma {:induction false} BraceIsLast(fs: Fields, j: nat)
    requires j < 4 * |fs| && j % 2 == 1
    ensures '}' in Pieces(fs)[j] <==> j == 4 * |fs| - 1
  {
    if j >= 4 {
      BraceIsLast(fs[1..], j - 4);
      assert Pieces(fs)[j] == Pieces(fs[1..])[j - 4];
    } else {
      assert Pieces(fs)[j] == [fs[0].0, COLON, fs[0].1, if |fs| == 1 then CLOSING else COMMA][j];
      assert CLOSING[1] == '}';
    }
  }

  lemma CutIsUnclosed(fs: Fields, k: nat, m: nat)
    requires fs != [] && k <= 4 * |fs| && m <= |AllPieces(fs)[k]|
    requires k < 4 * |fs| || m < 2
    ensures UnclosedPieces(AllPieces(fs)[..k] + [AllPieces(fs)[k][..m]])
  {
    var all := AllPieces(fs);
    var ps := all[..k] + [all[k][..m]];
    forall i | 0 <= i < |ps| && i % 2 == 0 ensures '}' !in ps[i] {
      if i > 0 {
        BraceIsLast(fs, i - 1);
        PieceAt(fs, |fs| - 1);
      }
    }
    SqueezedParts();
    OpeningPrefix(m);
  }

  lemma OpeningPrefix(m: nat)
    ensures m <= |OPENING| ==> Squeeze(OPENING[..m]) == "" || Squeeze(OPENING[..m])[0] == '{'
  {
  }

  lemma CutPiecesRead(fs: Fields, k: nat, m: nat)
    requires fs != [] && PlainFields(fs) && k <= 4 * |fs| && m <= |AllPieces(fs)[k]|
    ensures ReadPieces(AllPieces(fs)[..k] + [AllPieces(fs)[k][..m]])
         == if k == 4 * |fs| && m >= 2 then Some(fs) else None
  {
    var ps := AllPieces(fs)[..k] + [AllPieces(fs)[k][..m]];
    if k == 4 * |fs| && m >= 2 {
      PieceAt(fs, |fs| - 1);
      SqueezedClosing(m);
      SqueezedParts();
      WholeFieldsRead(fs, CLOSING[..m]);
      AnyEnd(fs, CLOSING, CLOSING[..m]);
      assert ps[1..] == Pieces(fs)[..4 * |fs| - 1] + [CLOSING[..m]];
    } else {
      CutReadsNothing(fs, k, m);
    }
  }

  lemma {:induction false} NoBackslash(fs: Fields)
    requires PlainFields(fs)
    ensures '\\' !in Entries(fs)
  {
    if fs != [] {
      NoBackslash(fs[1..]);
      assert '\\' !in Entry(fs[0]);
    }
  }

  lemma CutNoBackslash(fs: Fields, n: nat)
    requires PlainFields(fs) && n <= |PrintObject(fs)|
    ensures '\\' !in PrintObject(fs)[..n]
  {
    NoBackslash(fs);
    assert '\\' !in OPENING && '\\' !in QUOTE;
    assert '\\' !in PrintObject(fs);
  }

  /** A printed object, cut off anywhere, is read back if all but the last newline is there, and is
      surely no JSON otherwise. */
  lemma {:induction false} CutObjectReads(fs: Fields, n: nat)
    requires fs != [] && PlainFields(fs) && n <= |PrintObject(fs)|
    ensures ReadObject(PrintObject(fs)[..n]) == if n + 1 >= |PrintObject(fs)| then Some(fs) else None
    ensures n + 1 < |PrintObject(fs)| ==> Unclosed(PrintObject(fs)[..n])
  {
    PrintedIsJoined(fs);
    AllPiecesFree(fs);
    var k, m := CutPieces(AllPieces(fs), n);
    CutPiecesRead(fs, k, m);
    CutOfAll(fs, n, k, m);
    if n + 1 < |PrintObject(fs)| {
      CutIsUnclosed(fs, k, m);
      CutNoBackslash(fs, n);
    }
  }

  /** Only the newline after the closing brace may be missing. */
  lemma CutOfAll(fs: Fields, n: nat, k: nat, m: nat)
    requires fs != [] && CutIn(AllPieces(fs), n, k, m)
    ensures k == 4 * |fs| && m >= 2 <==> n + 1 >= |Join(AllPieces(fs), QUOTE)|
  {
    PieceAt(fs, |fs| - 1);
    assert AllPieces(fs)[4 * |fs|] == CLOSING && |CLOSING| == 3;
  }
}
