/** Python's str.strip, str.lower and str.split on ASCII text. */
module Text {

  predicate Space(c: char) { c == ' ' || '\t' <= c <= '\r' || '\U{1C}' <= c <= '\U{1F}' }

  lemma SpaceCodes(c: char)
    ensures Space(c) <==> c as int in {9, 10, 11, 12, 13, 28, 29, 30, 31, 32}
  {}

  function StripLeft(s: string): (r: string)
    ensures r == "" || !Space(r[0])
    ensures s == "" || !Space(s[0]) ==> r == s
  { if s != "" && Space(s[0]) then StripLeft(s[1..]) else s }

  function StripRight(s: string): (r: string)
    ensures r == "" || !Space(r[|r| - 1])
    ensures s == "" || !Space(s[|s| - 1]) ==> r == s
    ensures r <= s
  { if s != "" && Space(s[|s| - 1]) then StripRight(s[..|s| - 1]) else s }

  function LowerChar(c: char): (l: char)
    ensures Space(l) <==> Space(c)
    ensures !('A' <= l <= 'Z')
  { if 'A' <= c <= 'Z' then c - 'A' + 'a' else c }

  function Lower(s: string): (r: string)
    ensures |r| == |s|
    ensures forall i | 0 <= i < |s| :: r[i] == LowerChar(s[i])
  { seq(|s|, i requires 0 <= i < |s| => LowerChar(s[i])) }

  function Strip(s: string): (r: string)
    ensures r != "" ==> !Space(r[0]) && !Space(r[|r| - 1])
  {
    var left := StripLeft(s);
    var core := StripRight(left);
    assert core != "" ==> core[0] == left[0];
    core
  }

  /** The blanks in front. */
  function Indent(s: string): (k: nat)
    ensures k <= |s| && (forall i | 0 <= i < k :: Space(s[i])) && (k < |s| ==> !Space(s[k]))
  { if s == "" || !Space(s[0]) then 0 else 1 + Indent(s[1..]) }

  lemma {:induction false} StripLeftDropsTheIndent(s: string)
    ensures StripLeft(s) == s[Indent(s)..]
  { if s != "" && Space(s[0]) { StripLeftDropsTheIndent(s[1..]); } }

  lemma {:induction false} StripRightKeepsTheFirst(s: string)
    requires s != "" && !Space(s[0])
    ensures StripRight(s) != "" && StripRight(s)[0] == s[0]
  { if Space(s[|s| - 1]) { StripRightKeepsTheFirst(s[..|s| - 1]); } }

  /** What is left starts with the first character that is not blank. */
  lemma StripStarts(s: string)
    ensures Strip(s) == "" <==> Indent(s) == |s|
    ensures Indent(s) < |s| ==> Strip(s) != "" && Strip(s)[0] == s[Indent(s)]
  {
    StripLeftDropsTheIndent(s);
    if Indent(s) < |s| { StripRightKeepsTheFirst(StripLeft(s)); }
  }

  predicate Trimmed(s: string) { s != "" ==> !Space(s[0]) && !Space(s[|s| - 1]) }

  lemma StripFixesTrimmed(s: string)
    ensures Strip(s) == s <==> Trimmed(s)
  {}

  /** Stripping again does nothing, nor does stripping text of the same shape. */
  lemma StripIsStable(s: string, t: string)
    requires Trimmed(s) && |t| == |s| && forall i | 0 <= i < |s| :: Space(t[i]) <==> Space(s[i])
    ensures Strip(s) == s && Strip(t) == t
  {
    StripFixesTrimmed(s);
    StripFixesTrimmed(t);
  }

  /** Fields between separators; always at least one. */
  function Split(s: string, sep: char): (fields: seq<string>)
    ensures fields != []
  {
    if s == "" then [""]
    else
      var rest := Split(s[1..], sep);
      if s[0] == sep then [""] + rest else [[s[0]] + rest[0]] + rest[1..]
  }

  /** Fields hold no separator, and one or two fields put together again are the text. */
  lemma {:induction false} FieldsJoinAgain(s: string, sep: char)
    ensures var fields := Split(s, sep);
            && (forall i | 0 <= i < |fields| :: sep !in fields[i])
            && (|fields| == 1 ==> s == fields[0])
            && (|fields| == 2 ==> s == fields[0] + [sep] + fields[1])
  {
    if s != "" {
      FieldsJoinAgain(s[1..], sep);
      assert s == [s[0]] + s[1..];
      var rest, fields := Split(s[1..], sep), Split(s, sep);
      if s[0] == sep {
        assert fields == [""] + rest;
        if |rest| == 1 { assert s == "" + [sep] + rest[0]; }
      } else {
        assert fields == [[s[0]] + rest[0]] + rest[1..];
        forall i | 0 <= i < |fields| ensures sep !in fields[i] {
          if i > 0 { assert fields[i] == rest[i]; }
        }
        if |rest| == 2 { assert s == ([s[0]] + rest[0]) + [sep] + rest[1]; }
      }
    }
  }

  lemma {:induction false} SplitPlain(s: string, sep: char)
    requires sep !in s
    ensures Split(s, sep) == [s]
  {
    if s != "" {
      SplitPlain(s[1..], sep);
      assert s == [s[0]] + s[1..];
    }
  }

  lemma {:induction false} SplitJoined(a: string, b: string, sep: char)
    requires sep !in a && sep !in b
    ensures Split(a + [sep] + b, sep) == [a, b]
  {
    var s := a + [sep] + b;
    if a == "" {
      assert s[1..] == b;
      SplitPlain(b, sep);
    } else {
      assert s[1..] == a[1..] + [sep] + b;
      SplitJoined(a[1..], b, sep);
      assert a == [a[0]] + a[1..];
    }
  }
}
