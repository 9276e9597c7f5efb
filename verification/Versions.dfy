/** VersionNumber of uagent.py: the parser, the printer, the order, and ranges of versions. */
module Versions {
  import opened Wrappers
  import opened Text

  /** sys.maxsize on a 64-bit platform. */
  const MAXSIZE := 0x7FFF_FFFF_FFFF_FFFF

  datatype Version = Version(major: int, minor: int, patch: int, build: int)

  // ---------- parsing and printing ----------

  /** One component: its number, `missing` when it is absent or empty, None for a ValueError. */
  function Component(parts: seq<string>, i: nat, missing: int): Option<int> {
    if i < |parts| && parts[i] != "" then ParseInt(parts[i]) else Some(missing)
  }

  function FromParts(parts: seq<string>): Option<Version> {
    var a, b := Component(parts, 0, 0), Component(parts, 1, MAXSIZE);
    var c, d := Component(parts, 2, MAXSIZE), Component(parts, 3, MAXSIZE);
    if a.Some? && b.Some? && c.Some? && d.Some?
    then Some(Version(a.value, b.value, c.value, d.value))
    else None
  }

  function Parse(vstring: string): Option<Version> {
    FromParts(SplitOn(vstring, "."))
  }

  function Parts(v: Version): seq<string> {
    [PrintInt(v.major), PrintInt(v.minor), PrintInt(v.patch), PrintInt(v.build)]
  }

  function Print(v: Version): string {
    Join(Parts(v), ".")
  }

  lemma PrintIntPlain(n: int)
    ensures PrintInt(n) != "" && '.' !in PrintInt(n) && (n >= 0 ==> '-' !in PrintInt(n))
  {
    var s := PrintInt(n);
    assert forall i :: 0 <= i < |s| ==> IsDigit(s[i]) || s[i] == '-';
  }

  lemma SplitDots(parts: seq<string>)
    requires parts != [] && forall p :: p in parts ==> '.' !in p
    ensures SplitOn(Join(parts, "."), ".") == parts
  {
    forall p | p in parts ensures Free(p, ".") {
      FreeOfChar(p, '.');
    }
    SplitJoin(parts, ".");
  }

  /** Parsing the printed form gives back the version. */
  lemma ParsePrint(v: Version)
    ensures Parse(Print(v)) == Some(v)
  {
    PrintIntPlain(v.major);
    PrintIntPlain(v.minor);
    PrintIntPlain(v.patch);
    PrintIntPlain(v.build);
    SplitDots(Parts(v));
    ParsePrintInt(v.major);
    ParsePrintInt(v.minor);
    ParsePrintInt(v.patch);
    ParsePrintInt(v.build);
  }

  function Printed(ns: seq<int>): (r: seq<string>)
    ensures |r| == |ns| && forall i :: 0 <= i < |r| ==> r[i] == PrintInt(ns[i])
  {
    seq(|ns|, i requires 0 <= i < |ns| => PrintInt(ns[i]))
  }

  /** The version with the given first components and the largest numbers after them. */
  function Fill(ns: seq<int>): Version
    requires 1 <= |ns| <= 4
  {
    Version(ns[0],
            if |ns| > 1 then ns[1] else MAXSIZE,
            if |ns| > 2 then ns[2] else MAXSIZE,
            if |ns| > 3 then ns[3] else MAXSIZE)
  }

  lemma ReadComponent(parts: seq<string>, i: nat, n: int, missing: int)
    requires i < |parts| && parts[i] == PrintInt(n)
    ensures Component(parts, i, missing) == Some(n)
  {
    PrintIntPlain(n);
    ParsePrintInt(n);
  }

  lemma PrintedPlain(ns: seq<int>)
    ensures forall p :: p in Printed(ns) ==> '.' !in p
  {
    forall p | p in Printed(ns) ensures '.' !in p {
      var i :| 0 <= i < |ns| && Printed(ns)[i] == p;
      PrintIntPlain(ns[i]);
    }
  }

  lemma FillParts(ns: seq<int>)
    requires 1 <= |ns| <= 4
    ensures FromParts(Printed(ns)) == Some(Fill(ns))
  {
    var parts := Printed(ns);
    ReadComponent(parts, 0, ns[0], 0);
    if |ns| > 1 { ReadComponent(parts, 1, ns[1], MAXSIZE); }
    if |ns| > 2 { ReadComponent(parts, 2, ns[2], MAXSIZE); }
    if |ns| > 3 { ReadComponent(parts, 3, ns[3], MAXSIZE); }
  }

  /** A string with one to four components reads as those, filled up with the largest numbers. */
  lemma {:induction false} TruncatedFills(ns: seq<int>)
    requires 1 <= |ns| <= 4
    ensures Parse(Join(Printed(ns), ".")) == Some(Fill(ns))
  {
    PrintedPlain(ns);
    SplitDots(Printed(ns));
    FillParts(ns);
  }

  predicate NoNumber(parts: seq<string>, i: nat) {
    i < |parts| && parts[i] != "" && ParseInt(parts[i]).None?
  }

  function ValueAt(parts: seq<string>, i: nat): int {
    if i < |parts| && parts[i] != "" && ParseInt(parts[i]).Some? then ParseInt(parts[i]).value
    else if i == 0 then 0
    else 9223372036854775807
  }

  /** Any string: the first four components count, an absent or empty one as the default, and one that is
      no number is a ValueError. */
  lemma {:induction false} ParseReads(vstring: string, parts: seq<string>)
    requires parts == SplitOn(vstring, ".")
    ensures Parse(vstring).None? <==> exists i: nat :: i < 4 && NoNumber(parts, i)
    ensures Parse(vstring).Some? ==> forall i :: 0 <= i < 4 ==>
              Components(Parse(vstring).value)[i] == ValueAt(parts, i)
  {
    if Parse(vstring).None? {
      assert NoNumber(parts, 0) || NoNumber(parts, 1) || NoNumber(parts, 2) || NoNumber(parts, 3);
    }
  }

  /** The empty string is the exception: its first component is 0. */
  lemma EmptyVersion()
    ensures Parse("") == Some(Version(0, MAXSIZE, MAXSIZE, MAXSIZE))
  {
    SplitDots([""]);
  }

  /** So a truncated version lies above every version with its prefix and ordinary components
      after it, and exactly below those with a larger prefix. */
  lemma TruncatedIsAbove(ns: seq<int>, v: Version)
    requires 1 <= |ns| <= 3
    requires forall i :: |ns| <= i < 4 ==> Components(v)[i] < MAXSIZE
    ensures Components(v)[..|ns|] == ns ==> Less(v, Fill(ns))
    ensures Less(Fill(ns), v) <==> LexLess(ns, Components(v))
  {
    var a, b, w := Components(Fill(ns)), Components(v), Fill(ns);
    CmpIsLexicographic(w, v);
    assert b[3] < MAXSIZE && (|ns| <= 2 ==> b[2] < MAXSIZE) && (|ns| <= 1 ==> b[1] < MAXSIZE);
    if b[..|ns|] == ns {
      assert forall i :: 0 <= i < |ns| ==> b[i] == b[..|ns|][i];
    }
    if LexLess(ns, b) {
      var k :| 0 <= k < |ns| && k < |b| && ns[..k] == b[..k] && ns[k] < b[k];
      assert a[..k] == ns[..k];
      assert a[k] < b[k];
    }
    if LexLess(a, b) {
      var k :| 0 <= k < |a| && k < |b| && a[..k] == b[..k] && a[k] < b[k];
      assert ns[..k] == a[..k];
    }
  }

  // ---------- the order ----------

  /** The difference of the first components that differ. */
  function Cmp(v: Version, w: Version): int {
    if v.major != w.major then v.major - w.major
    else if v.minor != w.minor then v.minor - w.minor
    else if v.patch != w.patch then v.patch - w.patch
    else v.build - w.build
  }

  predicate Less(v: Version, w: Version) { Cmp(v, w) < 0 }

  predicate LessEq(v: Version, w: Version) { Cmp(v, w) <= 0 }

  predicate Greater(v: Version, w: Version) { Cmp(v, w) > 0 }

  predicate GreaterEq(v: Version, w: Version) { Cmp(v, w) >= 0 }

  predicate Equal(v: Version, w: Version) { Cmp(v, w) == 0 }

  predicate NotEqual(v: Version, w: Version) { Cmp(v, w) != 0 }

  function Components(v: Version): seq<int> {
    [v.major, v.minor, v.patch, v.build]
  }

  /** Lexicographic order, defined on any two lists of numbers of the same length. */
  ghost predicate LexLess(a: seq<int>, b: seq<int>) {
    exists k :: 0 <= k < |a| && k < |b| && a[..k] == b[..k] && a[k] < b[k]
  }

  lemma CmpIsLexicographic(v: Version, w: Version)
    ensures Less(v, w) <==> LexLess(Components(v), Components(w))
  {
    var a, b := Components(v), Components(w);
    if Less(v, w) {
      var k := if v.major != w.major then 0 else if v.minor != w.minor then 1 else if v.patch != w.patch then 2 else 3;
      assert a[..k] == b[..k] && a[k] < b[k];
    }
    if LexLess(a, b) {
      var k :| 0 <= k < 4 && a[..k] == b[..k] && a[k] < b[k];
      assert forall j :: 0 <= j < k ==> a[j] == a[..k][j] && a[..k][j] == b[..k][j] && b[..k][j] == b[j];
      assert k >= 1 ==> a[0] == b[0];
      assert k >= 2 ==> a[1] == b[1];
      assert k >= 3 ==> a[2] == b[2];
    }
  }

  /** A total order on which the six operators agree. */
  lemma TotalOrder(u: Version, v: Version, w: Version)
    ensures LessEq(u, v) && LessEq(v, w) ==> LessEq(u, w)
    ensures Less(u, v) && LessEq(v, w) ==> Less(u, w)
    ensures LessEq(u, v) && Less(v, w) ==> Less(u, w)
    ensures Equal(u, v) <==> u == v
    ensures Less(u, v) <==> Greater(v, u)
    ensures LessEq(u, v) <==> GreaterEq(v, u)
    ensures LessEq(u, v) <==> !Greater(u, v)
    ensures GreaterEq(u, v) <==> !Less(u, v)
    ensures NotEqual(u, v) <==> !Equal(u, v)
    ensures LessEq(u, v) <==> Less(u, v) || Equal(u, v)
  {
  }

  // ---------- ranges ----------

  /** What in_range and beyond_range raise, or the answer. */
  datatype Answer = Yes | No | ValueError | IndexError

  function ToAnswer(b: bool): Answer { if b then Yes else No }

  function InRange(v: Version, vrange: string): Answer {
    var r := SplitOn(vrange, "-");
    var f := Parse(r[0]);
    if f.None? then ValueError
    else if |r| < 2 then IndexError
    else
      var t := Parse(r[1]);
      if t.None? then ValueError
      else ToAnswer(LessEq(f.value, v) && Less(v, t.value))
  }

  function BeyondRange(v: Version, vrange: string): Answer {
    var r := SplitOn(vrange, "-");
    if |r| < 2 then IndexError
    else
      var t := Parse(r[1]);
      if t.None? then ValueError else ToAnswer(GreaterEq(v, t.value))
  }

  predicate NonNegative(v: Version) {
    v.major >= 0 && v.minor >= 0 && v.patch >= 0 && v.build >= 0
  }

  function PrintRange(f: Version, t: Version): string {
    Print(f) + "-" + Print(t)
  }

  lemma NoDashInJoin(parts: seq<string>)
    requires forall p :: p in parts ==> '-' !in p
    ensures '-' !in Join(parts, ".")
  {
    if |parts| > 0 {
      assert parts[0] in parts;
      NoDashInJoin(parts[1..]);
    }
  }

  lemma PrintHasNoDash(v: Version)
    requires NonNegative(v)
    ensures Free(Print(v), "-")
  {
    PrintIntPlain(v.major);
    PrintIntPlain(v.minor);
    PrintIntPlain(v.patch);
    PrintIntPlain(v.build);
    NoDashInJoin(Parts(v));
    FreeOfChar(Print(v), '-');
  }

  /** The printed range splits into the two printed versions. */
  lemma RangeSplits(f: Version, t: Version)
    requires NonNegative(f) && NonNegative(t)
    ensures SplitOn(PrintRange(f, t), "-") == [Print(f), Print(t)]
  {
    PrintHasNoDash(f);
    PrintHasNoDash(t);
    SplitFirst(Print(f), "-", Print(t));
    assert SplitOn(Print(t), "-") == [Print(t)];
  }

  predicate BelowRange(v: Version, f: Version) { Less(v, f) }

  /** Exactly one of three. */
  predicate OneOf(a: bool, b: bool, c: bool) {
    (a && !b && !c) || (!a && b && !c) || (!a && !b && c)
  }

  /** The range has two ends that are versions. */
  predicate TwoEnds(vrange: string) {
    var r := SplitOn(vrange, "-");
    |r| >= 2 && Parse(r[0]).Some? && Parse(r[1]).Some?
  }

  function LowEnd(vrange: string): Version
    requires TwoEnds(vrange)
  {
    Parse(SplitOn(vrange, "-")[0]).value
  }

  function HighEnd(vrange: string): Version
    requires TwoEnds(vrange)
  {
    Parse(SplitOn(vrange, "-")[1]).value
  }

  ghost predicate Partitioned(v: Version, vrange: string)
    requires TwoEnds(vrange)
  {
    OneOf(BelowRange(v, LowEnd(vrange)), InRange(v, vrange) == Yes, BeyondRange(v, vrange) == Yes)
  }

  /** Every version is below, in or beyond a range, exactly one of the three, precisely when the
      range is ordered. */
  lemma {:induction false} RangePartition(vrange: string)
    requires TwoEnds(vrange)
    ensures (forall v :: Partitioned(v, vrange)) <==> LessEq(LowEnd(vrange), HighEnd(vrange))
  {
    var f, t := LowEnd(vrange), HighEnd(vrange);
    if LessEq(f, t) {
      forall v: Version ensures Partitioned(v, vrange) {
        TotalOrder(f, t, v);
        TotalOrder(v, f, t);
      }
    } else {
      assert !Partitioned(t, vrange);
    }
  }

  /** The lower end is in the range and the upper one is not. */
  lemma RangeAnswers(v: Version, vrange: string)
    requires TwoEnds(vrange)
    ensures InRange(v, vrange) == Yes <==>
              !LexLess(Components(v), Components(LowEnd(vrange))) && LexLess(Components(v), Components(HighEnd(vrange)))
    ensures BeyondRange(v, vrange) == Yes <==> !LexLess(Components(v), Components(HighEnd(vrange)))
    ensures InRange(v, vrange) in [Yes, No] && BeyondRange(v, vrange) in [Yes, No]
  {
    CmpIsLexicographic(v, LowEnd(vrange));
    CmpIsLexicographic(v, HighEnd(vrange));
  }

  /** in_range reads its lower end first; beyond_range never reads it. */
  lemma RangeRaises(v: Version, vrange: string)
    ensures InRange(v, vrange) == IndexError <==> '-' !in vrange && Parse(vrange).Some?
    ensures BeyondRange(v, vrange) == IndexError <==> '-' !in vrange
    ensures var r := SplitOn(vrange, "-");
            && (InRange(v, vrange) == ValueError <==> Parse(r[0]).None? || ('-' in vrange && Parse(r[1]).None?))
            && (BeyondRange(v, vrange) == ValueError <==> '-' in vrange && Parse(r[1]).None?)
  {
    SplitsAtChar(vrange, '-');
  }

  lemma TruncatedHasNoDash(ns: seq<int>)
    requires forall n :: n in ns ==> n >= 0
    ensures Free(Join(Printed(ns), "."), "-")
  {
    forall p | p in Printed(ns) ensures '-' !in p {
      var i :| 0 <= i < |ns| && Printed(ns)[i] == p;
      assert ns[i] in ns;
      PrintIntPlain(ns[i]);
    }
    NoDashInJoin(Printed(ns));
    FreeOfChar(Join(Printed(ns), "."), '-');
  }

  /** The ends of a range of shortened versions, such as 1.0-2.0: both are filled up with the largest
      numbers, so the whole of 1.0 is below it and the whole of 2.0 in it. */
  lemma {:induction false} ShortRange(ns: seq<int>, ms: seq<int>)
    requires 1 <= |ns| <= 4 && 1 <= |ms| <= 4
    requires (forall n :: n in ns ==> n >= 0) && (forall m :: m in ms ==> m >= 0)
    ensures var vrange := Join(Printed(ns), ".") + "-" + Join(Printed(ms), ".");
            TwoEnds(vrange) && LowEnd(vrange) == Fill(ns) && HighEnd(vrange) == Fill(ms)
  {
    var a, b := Join(Printed(ns), "."), Join(Printed(ms), ".");
    TruncatedHasNoDash(ns);
    TruncatedHasNoDash(ms);
    SplitFirst(a, "-", b);
    assert SplitOn(b, "-") == [b];
    TruncatedFills(ns);
    TruncatedFills(ms);
  }
}
