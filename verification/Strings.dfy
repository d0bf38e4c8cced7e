/** Python's str.strip, str.split at line feeds and str.join with them. */
module Strings {

  // The characters that they remove.
  predicate IsSpace(c: char) {
    var x := c as int;
    0x09 <= x <= 0x0D || 0x1C <= x <= 0x20 || x == 0x85 || x == 0xA0 || x == 0x1680 ||
    0x2000 <= x <= 0x200A || x == 0x2028 || x == 0x2029 || x == 0x202F || x == 0x205F || x == 0x3000
  }

  predicate IsBlank(s: string) {
    forall c | c in s :: IsSpace(c)
  }

  function LeftStripped(s: string): (r: string)
    ensures |r| <= |s|
  {
    if s != "" && IsSpace(s[0]) then LeftStripped(s[1..]) else s
  }

  function RightStripped(s: string): (r: string)
    ensures |r| <= |s|
  {
    if s != "" && IsSpace(s[|s| - 1]) then RightStripped(s[..|s| - 1]) else s
  }

  function Stripped(s: string): (r: string)
    ensures |r| <= |s|
  {
    RightStripped(LeftStripped(s))
  }

  // What stripping takes off: as much white space as there is, at both ends, and nothing else.
  lemma {:induction false} LeftStrippedExactly(s: string) returns (cut: string)
    ensures s == cut + LeftStripped(s) && IsBlank(cut)
    ensures LeftStripped(s) != "" ==> !IsSpace(LeftStripped(s)[0])
  {
    if s != "" && IsSpace(s[0]) {
      var rest := LeftStrippedExactly(s[1..]);
      cut := [s[0]] + rest;
      assert s == [s[0]] + s[1..];
    } else {
      cut := "";
    }
  }

  lemma {:induction false} RightStrippedExactly(s: string) returns (cut: string)
    ensures s == RightStripped(s) + cut && IsBlank(cut)
    ensures RightStripped(s) != "" ==> !IsSpace(RightStripped(s)[|RightStripped(s)| - 1])
  {
    if s != "" && IsSpace(s[|s| - 1]) {
      var n := |s| - 1;
      var rest := RightStrippedExactly(s[..n]);
      cut := rest + [s[n]];
      assert s == s[..n] + [s[n]];
    } else {
      cut := "";
    }
  }

  lemma StrippedExactly(s: string) returns (before: string, after: string)
    ensures s == before + Stripped(s) + after && IsBlank(before) && IsBlank(after)
    ensures Stripped(s) != "" ==> !IsSpace(Stripped(s)[0]) && !IsSpace(Stripped(s)[|Stripped(s)| - 1])
  {
    before := LeftStrippedExactly(s);
    after := RightStrippedExactly(LeftStripped(s));
    var r := Stripped(s);
    assert LeftStripped(s) == r + after;
    assert r != "" ==> LeftStripped(s)[0] == r[0];
  }

  const LF := '\n'

  function Split(s: string): (lines: seq<string>)
    ensures |lines| > 0
  {
    if s == "" then [""]
    else
      var rest := Split(s[1..]);
      if s[0] == LF then [""] + rest else [[s[0]] + rest[0]] + rest[1..]
  }

  function JoinLines(ss: seq<string>): string {
    if ss == [] then "" else if |ss| == 1 then ss[0] else ss[0] + [LF] + JoinLines(ss[1..])
  }

  // Joining undoes splitting, so different strings split differently.
  lemma {:induction false} SplitJoins(s: string)
    ensures JoinLines(Split(s)) == s
  {
    if s != "" {
      var rest := Split(s[1..]);
      SplitJoins(s[1..]);
      assert s == [s[0]] + s[1..];
      if s[0] == LF {
        assert ([""] + rest)[1..] == rest;
      } else {
        assert ([[s[0]] + rest[0]] + rest[1..])[1..] == rest[1..];
      }
    }
  }

  lemma {:induction false} SplitAppend(x: string, y: string)
    ensures Split(x + [LF] + y) == Split(x) + Split(y)
  {
    var s := x + [LF] + y;
    if x == "" {
      assert s == [LF] + y && s[1..] == y;
    } else {
      assert s[1..] == x[1..] + [LF] + y;
      SplitAppend(x[1..], y);
    }
  }

  // The lines of several strings one after the other.
  function LinesOf(ss: seq<string>): seq<string> {
    if ss == [] then [] else Split(ss[0]) + LinesOf(ss[1..])
  }

  // Splitting undoes joining, but for the line feeds that the parts had themselves.
  lemma {:induction false} JoinedSplits(ss: seq<string>)
    requires ss != []
    ensures Split(JoinLines(ss)) == LinesOf(ss)
  {
    if |ss| == 1 {
      assert LinesOf(ss[1..]) == [];
    } else {
      JoinedSplits(ss[1..]);
      SplitAppend(ss[0], JoinLines(ss[1..]));
    }
  }

  lemma {:induction false} SplitOneLine(s: string)
    requires LF !in s
    ensures Split(s) == [s]
  {
    if s != "" {
      SplitOneLine(s[1..]);
      assert s == [s[0]] + s[1..];
    }
  }

  lemma {:induction false} LinesOfOneLiners(ss: seq<string>)
    requires forall s | s in ss :: LF !in s
    ensures LinesOf(ss) == ss
  {
    if ss != [] {
      SplitOneLine(ss[0]);
      LinesOfOneLiners(ss[1..]);
    }
  }
}
