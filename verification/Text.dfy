/** The Python string operations the modelled programs rely on: find, split, join, strip,
    case conversion and decimal conversion. Strings are byte strings of the C locale. */
module Text {
  import opened Wrappers

  // ---------- find ----------

  predicate At(s: string, p: nat, pat: string) {
    p + |pat| <= |s| && s[p..p + |pat|] == pat
  }

  lemma AtIndex(s: string, p: nat, pat: string, k: nat)
    requires At(s, p, pat) && k < |pat|
    ensures s[p + k] == pat[k]
  {
    assert s[p..p + |pat|][k] == s[p + k];
  }

  function FindFrom(s: string, pat: string, i: nat): (r: Option<nat>)
    ensures r.Some? ==> i <= r.value && At(s, r.value, pat) && forall q: nat :: i <= q < r.value ==> !At(s, q, pat)
    ensures r.None? ==> forall q: nat :: i <= q ==> !At(s, q, pat)
    decreases |s| - i
  {
    if i + |pat| > |s| then None
    else if s[i..i + |pat|] == pat then Some(i)
    else FindFrom(s, pat, i + 1)
  }

  /** The first occurrence of `pat`, as str.find gives it. */
  function Find(s: string, pat: string): (r: Option<nat>)
    ensures r.Some? ==> At(s, r.value, pat) && forall q: nat :: q < r.value ==> !At(s, q, pat)
    ensures r.None? ==> forall q: nat :: !At(s, q, pat)
  {
    FindFrom(s, pat, 0)
  }

  ghost predicate Free(s: string, pat: string) {
    forall q: nat :: !At(s, q, pat)
  }

  /** A separator that cannot overlap itself. */
  predicate Plain(sep: string) {
    sep != "" && forall k :: 1 <= k < |sep| ==> sep[k] != sep[0]
  }

  lemma FindAfterFree(a: string, sep: string, rest: string)
    requires Free(a, sep) && Plain(sep)
    ensures Find(a + sep + rest, sep) == Some(|a|)
  {
    var s := a + sep + rest;
    assert s[|a|..|a| + |sep|] == sep;
    assert At(s, |a|, sep);
    forall q: nat | q < |a| ensures !At(s, q, sep) {
      assert !At(a, q, sep);
      assert q + |sep| <= |a| ==> a[q..q + |sep|] == s[q..q + |sep|];
      if At(s, q, sep) && q + |sep| > |a| {
        AtIndex(s, q, sep, |a| - q);
      }
    }
  }

  // ---------- split and join ----------

  function SplitOn(s: string, sep: string): (r: seq<string>)
    requires sep != ""
    ensures |r| >= 1
    decreases |s|
  {
    match Find(s, sep)
    case None => [s]
    case Some(p) => [s[..p]] + SplitOn(s[p + |sep|..], sep)
  }

  function Join(parts: seq<string>, sep: string): string {
    if |parts| == 0 then ""
    else if |parts| == 1 then parts[0]
    else parts[0] + sep + Join(parts[1..], sep)
  }

  lemma JoinCons(first: string, rest: seq<string>, sep: string)
    requires rest != []
    ensures Join([first] + rest, sep) == first + sep + Join(rest, sep)
  {
    assert ([first] + rest)[1..] == rest;
  }

  lemma CutAt(s: string, p: nat, sep: string)
    requires At(s, p, sep)
    ensures s == s[..p] + sep + s[p + |sep|..]
  {
    assert s[p..p + |sep|] == sep;
  }

  lemma {:induction false} JoinSplit(s: string, sep: string)
    requires sep != ""
    ensures Join(SplitOn(s, sep), sep) == s
    decreases |s|
  {
    var f := Find(s, sep);
    if f.Some? {
      var t := s[f.value + |sep|..];
      JoinSplit(t, sep);
      JoinCons(s[..f.value], SplitOn(t, sep), sep);
      CutAt(s, f.value, sep);
    }
  }

  lemma SplitFirst(a: string, sep: string, rest: string)
    requires Free(a, sep) && Plain(sep)
    ensures SplitOn(a + sep + rest, sep) == [a] + SplitOn(rest, sep)
  {
    FindAfterFree(a, sep, rest);
    var s := a + sep + rest;
    assert s[..|a|] == a;
    assert s[|a| + |sep|..] == rest;
  }

  lemma {:induction false} SplitJoin(parts: seq<string>, sep: string)
    requires |parts| >= 1 && Plain(sep)
    requires forall p :: p in parts ==> Free(p, sep)
    ensures SplitOn(Join(parts, sep), sep) == parts
  {
    if |parts| == 1 {
      assert parts[0] in parts;
    } else {
      SplitJoin(parts[1..], sep);
      assert parts[0] in parts;
      SplitFirst(parts[0], sep, Join(parts[1..], sep));
    }
  }

  lemma {:induction false} SplitPiecesFree(s: string, sep: string)
    requires sep != ""
    ensures forall p :: p in SplitOn(s, sep) ==> Free(p, sep)
    decreases |s|
  {
    match Find(s, sep)
    case None =>
    case Some(p) =>
      SplitPiecesFree(s[p + |sep|..], sep);
      BeforeFirst(s, p, sep);
  }

  lemma {:induction false} JoinAppend(parts: seq<string>, tail: seq<string>, sep: string)
    requires parts != [] && tail != []
    ensures Join(parts + tail, sep) == Join(parts, sep) + sep + Join(tail, sep)
  {
    if |parts| == 1 {
      assert (parts + tail)[1..] == tail;
    } else {
      assert (parts + tail)[1..] == parts[1..] + tail;
      JoinAppend(parts[1..], tail, sep);
    }
  }

  predicate EndsWith(s: string, suffix: string) {
    |suffix| <= |s| && s[|s| - |suffix|..] == suffix
  }

  /** EMPTYSTRING.join(pieces). */
  function Concat(pieces: seq<string>): string {
    if pieces == [] then "" else pieces[0] + Concat(pieces[1..])
  }

  lemma {:induction false} ConcatAppend(a: seq<string>, b: seq<string>)
    ensures Concat(a + b) == Concat(a) + Concat(b)
  {
    if a == [] {
      assert a + b == b;
    } else {
      assert (a + b)[1..] == a[1..] + b;
      ConcatAppend(a[1..], b);
    }
  }

  lemma FreeOfChar(s: string, c: char)
    requires c !in s
    ensures Free(s, [c])
  {
    forall q: nat ensures !At(s, q, [c]) {
      if At(s, q, [c]) {
        AtIndex(s, q, [c], 0);
      }
    }
  }

  lemma AtOne(s: string, i: nat, c: char)
    requires i < |s|
    ensures At(s, i, [c]) <==> s[i] == c
  {
    assert s[i..i + 1] == [s[i]];
  }

  lemma CharNotInFree(s: string, c: char)
    requires Free(s, [c])
    ensures c !in s
  {
    forall i | 0 <= i < |s| ensures s[i] != c {
      AtOne(s, i, c);
    }
  }

  lemma SplitsAtChar(s: string, c: char)
    ensures if c in s then |SplitOn(s, [c])| >= 2 else SplitOn(s, [c]) == [s]
  {
    if c in s {
      var i :| 0 <= i < |s| && s[i] == c;
      AtOne(s, i, c);
    } else {
      FreeOfChar(s, c);
    }
  }

  // ---------- file names ----------

  /** url.split('/')[-1]. */
  function BaseName(path: string): string {
    var parts := SplitOn(path, "/");
    parts[|parts| - 1]
  }

  /** A name that stands for one entry of the directory it is looked up in. */
  predicate SingleName(s: string) {
    s != "" && '/' !in s && s != "." && s != ".."
  }

  lemma {:induction false} BaseNameTail(a: string, b: string)
    ensures BaseName(a + "/" + b) == BaseName(b)
    decreases |a|
  {
    var f := Find(a, "/");
    if f.None? {
      BaseNameStep(a, b);
    } else {
      var first, more := a[..f.value], a[f.value + 1..];
      BeforeFirst(a, f.value, "/");
      CutAt(a, f.value, "/");
      Reassociate(first, more, b);
      BaseNameStep(first, more + "/" + b);
      BaseNameTail(more, b);
    }
  }

  lemma BaseNameStep(a: string, b: string)
    requires Free(a, "/")
    ensures BaseName(a + "/" + b) == BaseName(b)
  {
    SplitFirst(a, "/", b);
  }

  lemma Reassociate(a: string, b: string, c: string)
    ensures a + "/" + b + "/" + c == a + "/" + (b + "/" + c)
  {
  }

  lemma BeforeFirst(s: string, p: nat, sep: string)
    requires p <= |s| && sep != "" && forall q: nat :: q < p ==> !At(s, q, sep)
    ensures Free(s[..p], sep)
  {
    forall q: nat ensures !At(s[..p], q, sep) {
      if At(s[..p], q, sep) {
        assert s[q..q + |sep|] == s[..p][q..q + |sep|];
        assert At(s, q, sep);
      }
    }
  }

  lemma BaseNamePlain(s: string)
    requires '/' !in s
    ensures BaseName(s) == s
  {
    FreeOfChar(s, '/');
  }

  // ---------- case and white space ----------

  function UpperChar(c: char): char {
    if 'a' <= c <= 'z' then (c as int - 32) as char else c
  }

  function LowerChar(c: char): char {
    if 'A' <= c <= 'Z' then (c as int + 32) as char else c
  }

  function Upper(s: string): (r: string)
    ensures |r| == |s| && forall i :: 0 <= i < |s| ==> r[i] == UpperChar(s[i])
  {
    seq(|s|, i requires 0 <= i < |s| => UpperChar(s[i]))
  }

  function Lower(s: string): (r: string)
    ensures |r| == |s| && forall i :: 0 <= i < |s| ==> r[i] == LowerChar(s[i])
  {
    seq(|s|, i requires 0 <= i < |s| => LowerChar(s[i]))
  }

  predicate IsSpace(c: char) {
    c == ' ' || c == '\t' || c == '\n' || c == '\r' || c as int == 11 || c as int == 12
  }

  function LStrip(s: string): string {
    if s != "" && IsSpace(s[0]) then LStrip(s[1..]) else s
  }

  function RStrip(s: string): string {
    if s != "" && IsSpace(s[|s| - 1]) then RStrip(s[..|s| - 1]) else s
  }

  function Strip(s: string): string {
    RStrip(LStrip(s))
  }

  lemma StripNothing(s: string)
    requires s == "" || (!IsSpace(s[0]) && !IsSpace(s[|s| - 1]))
    ensures Strip(s) == s
  {
  }

  /** The 26 letters change case, and nothing else does. */
  lemma Alphabets(c: char)
    ensures Upper("abcdefghijklmnopqrstuvwxyz") == "ABCDEFGHIJKLMNOPQRSTUVWXYZ"
    ensures Lower("ABCDEFGHIJKLMNOPQRSTUVWXYZ") == "abcdefghijklmnopqrstuvwxyz"
    ensures UpperChar(c) != c ==> c in "abcdefghijklmnopqrstuvwxyz"
    ensures LowerChar(c) != c ==> c in "ABCDEFGHIJKLMNOPQRSTUVWXYZ"
  {
    var low, up := "abcdefghijklmnopqrstuvwxyz", "ABCDEFGHIJKLMNOPQRSTUVWXYZ";
    assert forall i :: 0 <= i < 26 ==> low[i] as int == 97 + i && up[i] as int == 65 + i;
    if 'a' <= c <= 'z' {
      assert low[c as int - 97] == c;
    }
    if 'A' <= c <= 'Z' {
      assert up[c as int - 65] == c;
    }
  }

  predicate AllSpace(s: string) {
    forall i :: 0 <= i < |s| ==> IsSpace(s[i])
  }

  lemma SpaceIs(c: char)
    ensures IsSpace(c) <==> c in [' ', '\t', '\n', '\r', 11 as char, 12 as char]
  {
  }

  /** Nothing to strip at either end. */
  predicate Tight(s: string) {
    s == "" || (!IsSpace(s[0]) && !IsSpace(s[|s| - 1]))
  }

  lemma {:induction false} LStripAround(a: string, s: string)
    requires AllSpace(a) && (s == "" || !IsSpace(s[0]))
    ensures LStrip(a + s) == s
  {
    if a == "" {
      assert a + s == s;
    } else {
      assert (a + s)[1..] == a[1..] + s;
      LStripAround(a[1..], s);
    }
  }

  lemma {:induction false} RStripAround(s: string, b: string)
    requires AllSpace(b) && (s == "" || !IsSpace(s[|s| - 1]))
    ensures RStrip(s + b) == s
  {
    if b == "" {
      assert s + b == s;
    } else {
      assert (s + b)[..|s + b| - 1] == s + b[..|b| - 1];
      RStripAround(s, b[..|b| - 1]);
    }
  }

  /** strip takes the white space at both ends and nothing else. */
  lemma {:induction false} StripAround(a: string, s: string, b: string)
    requires AllSpace(a) && AllSpace(b) && Tight(s)
    ensures Strip(a + s + b) == s
  {
    if s == "" {
      LStripAround(a + b, "");
      assert a + s + b == (a + b) + "";
    } else {
      assert a + s + b == a + (s + b) && (s + b)[0] == s[0];
      LStripAround(a, s + b);
      RStripAround(s, b);
    }
  }

  // ---------- decimal numbers ----------

  predicate IsDigit(c: char) { '0' <= c <= '9' }

  function Digit(n: nat): char
    requires n < 10
  {
    ('0' as int + n) as char
  }

  function PrintNat(n: nat): (s: string)
    ensures s != "" && forall i :: 0 <= i < |s| ==> IsDigit(s[i])
  {
    if n < 10 then [Digit(n)] else PrintNat(n / 10) + [Digit(n % 10)]
  }

  function PrintInt(n: int): string {
    if n < 0 then "-" + PrintNat(-n) else PrintNat(n)
  }

  /** The digits, most significant first. */
  lemma DecimalDigits(high: nat, d: nat)
    requires d < 10
    ensures PrintNat(d) == ["0123456789"[d]]
    ensures high > 0 ==> PrintNat(10 * high + d) == PrintNat(high) + ["0123456789"[d]]
    ensures PrintInt(-1 - high as int) == "-" + PrintNat(high + 1) && PrintInt(high) == PrintNat(high)
  {
    DigitText(d);
  }

  lemma DigitText(d: nat)
    requires d < 10
    ensures "0123456789"[d] == Digit(d)
  {
  }

  function ParseNat(s: string): Option<nat> {
    if s == "" || !IsDigit(s[|s| - 1]) then None
    else
      var d := s[|s| - 1] as int - '0' as int;
      if |s| == 1 then Some(d)
      else match ParseNat(s[..|s| - 1])
        case None => None
        case Some(h) => Some(10 * h + d)
  }

  function Negated(n: Option<int>): Option<int> {
    if n.Some? then Some(-n.value) else None
  }

  /** int(s): surrounding white space, an optional sign, decimal digits; None for ValueError. */
  function ParseInt(s: string): Option<int> {
    var t := Strip(s);
    if t != "" && t[0] == '-' then Negated(ParseNat(t[1..]))
    else if t != "" && t[0] == '+' then ParseNat(t[1..])
    else ParseNat(t)
  }

  lemma {:induction false} ParsePrintNat(n: nat)
    ensures ParseNat(PrintNat(n)) == Some(n)
  {
    if n < 10 {
    } else {
      ParsePrintNat(n / 10);
      var s := PrintNat(n);
      assert s[..|s| - 1] == PrintNat(n / 10);
      assert s[|s| - 1] == Digit(n % 10);
    }
  }

  lemma ParsePrintInt(n: int)
    ensures ParseInt(PrintInt(n)) == Some(n)
  {
    var s := PrintInt(n);
    assert forall i :: 0 <= i < |s| ==> IsDigit(s[i]) || s[i] == '-';
    StripNothing(s);
    if n < 0 {
      assert s[1..] == PrintNat(-n);
      ParsePrintNat(-n);
    } else {
      ParsePrintNat(n);
    }
  }

  lemma {:induction false} ParseNatIff(s: string)
    ensures ParseNat(s).Some? <==> s != "" && forall i :: 0 <= i < |s| ==> '0' <= s[i] <= '9'
  {
    if |s| > 1 {
      ParseNatIff(s[..|s| - 1]);
      assert forall i :: 0 <= i < |s| - 1 ==> s[i] == s[..|s| - 1][i];
    }
  }

  lemma PlainForm(a: string, n: nat, b: string)
    requires AllSpace(a) && AllSpace(b)
    ensures ParseInt(a + PrintNat(n) + b) == Some(n)
  {
    var s := PrintNat(n);
    ParsePrintNat(n);
    assert IsDigit(s[0]) && IsDigit(s[|s| - 1]);
    StripAround(a, s, b);
  }

  lemma SignedForm(a: string, sign: char, n: nat, b: string)
    requires AllSpace(a) && AllSpace(b) && sign in ['+', '-']
    ensures var k: int := if sign == '+' then n as int else -(n as int);
            ParseInt(a + ([sign] + PrintNat(n)) + b) == Some(k)
  {
    var s := PrintNat(n);
    ParsePrintNat(n);
    assert IsDigit(s[|s| - 1]) && ([sign] + s)[|[sign] + s| - 1] == s[|s| - 1];
    StripAround(a, [sign] + s, b);
    assert ([sign] + s)[1..] == s;
  }

  /** int() takes white space around an optional sign and digits. */
  lemma {:induction false} ParseIntForms(a: string, n: nat, b: string)
    requires AllSpace(a) && AllSpace(b)
    ensures ParseInt(a + PrintNat(n) + b) == Some(n)
    ensures ParseInt(a + (['+'] + PrintNat(n)) + b) == Some(n)
    ensures var k: int := -(n as int); ParseInt(a + (['-'] + PrintNat(n)) + b) == Some(k)
  {
    hide ParseInt, PrintNat;
    PlainForm(a, n, b);
    SignedForm(a, '+', n, b);
    SignedForm(a, '-', n, b);
  }

  /** It takes nothing else. */
  lemma {:induction false} ParseIntNeedsDigits(s: string)
    requires ParseInt(s).Some?
    ensures var t := Strip(s);
            t != "" && (forall i :: 0 < i < |t| ==> '0' <= t[i] <= '9')
            && (t[0] == '+' || t[0] == '-' || '0' <= t[0] <= '9')
  {
    var t := Strip(s);
    if t != "" && (t[0] == '-' || t[0] == '+') {
      ParseNatIff(t[1..]);
      assert forall i :: 0 < i < |t| ==> t[i] == t[1..][i - 1];
    } else {
      ParseNatIff(t);
    }
  }

  lemma EndsWithIff(s: string, suffix: string)
    ensures EndsWith(s, suffix) <==> exists rest :: s == rest + suffix
  {
    if EndsWith(s, suffix) {
      assert s == s[..|s| - |suffix|] + suffix;
    }
  }
}
