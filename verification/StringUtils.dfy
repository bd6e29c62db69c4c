/** Splitting, joining and trimming of strings. */
module StringUtils {

  // ---------------------------------------------------------------- searching

  /** Position of the first c at or after the start of s, |s| if there is none. */
  function Find(s: string, c: char): (r: nat)
    ensures r <= |s| && c !in s[..r] && (r < |s| ==> s[r] == c)
  {
    if s == [] then 0
    else if s[0] == c then 0
    else
      var r := 1 + Find(s[1..], c);
      assert s[..r] == [s[0]] + s[1..][..r - 1];
      r
  }

  lemma {:induction false} FindIs(s: string, c: char, r: nat)
    requires r <= |s| && c !in s[..r] && (r < |s| ==> s[r] == c)
    ensures Find(s, c) == r
    decreases r
  {
    if r > 0 {
      assert s[..r] == [s[0]] + s[1..][..r - 1];
      FindIs(s[1..], c, r - 1);
    }
  }

  lemma {:induction false} FindHit(s: string, c: char)
    requires c in s
    ensures Find(s, c) < |s|
  {
    if s[0] != c {
      assert s == [s[0]] + s[1..];
      FindHit(s[1..], c);
    }
  }

  // ---------------------------------------------------------------- split and join

  /** The pieces between separators; a separator at the very end is not followed by an empty piece. */
  function Split(s: string, sep: char): (r: seq<string>)
    ensures r == [] <==> s == []
  {
    if s == [] then []
    else
      var pos := Find(s, sep);
      [s[..pos]] + (if pos < |s| then Split(s[pos + 1..], sep) else [])
  }

  function Join(sep: char, parts: seq<string>): string {
    if parts == [] then ""
    else if |parts| == 1 then parts[0]
    else parts[0] + [sep] + Join(sep, parts[1..])
  }

  method SplitText(s: string, sep: char) returns (result: seq<string>)
    ensures result == Split(s, sep)
  {
    result := [];
    var rest := s;
    while rest != ""
      invariant Split(s, sep) == result + Split(rest, sep)
      decreases |rest|
    {
      var pos := Find(rest, sep);
      result := result + [rest[..pos]];
      rest := if pos < |rest| then rest[pos + 1..] else "";
    }
  }

  method JoinParts(sep: char, parts: seq<string>) returns (result: string)
    ensures result == Join(sep, parts)
  {
    if parts == [] {
      return "";
    }
    result := "";
    for i := 0 to |parts| - 1
      invariant Join(sep, parts) == result + Join(sep, parts[i..])
    {
      assert parts[i..][1..] == parts[i + 1..];
      result := result + parts[i] + [sep];
    }
    result := result + parts[|parts| - 1];
  }

  /** No piece contains the separator. */
  lemma {:induction false} PiecesAreClean(s: string, sep: char, i: nat)
    requires i < |Split(s, sep)|
    ensures sep !in Split(s, sep)[i]
    decreases |s|
  {
    var pos := Find(s, sep);
    if pos == |s| {
      OnePiece(s, sep);
      assert s[..pos] == s;
    } else {
      FirstPiece(s, sep);
      if i > 0 {
        PiecesAreClean(s[pos + 1..], sep, i - 1);
      }
    }
  }

  predicate EndsWith(s: string, c: char) {
    s != "" && s[|s| - 1] == c
  }

  /** One step of the law below: a piece in front of the joined others. */
  lemma JoinFirst(first: string, sep: char, rest: string)
    requires rest == Join(sep, Split(rest, sep)) + if EndsWith(rest, sep) then [sep] else ""
    ensures var s, parts := first + [sep] + rest, [first] + Split(rest, sep);
            s == Join(sep, parts) + if EndsWith(s, sep) then [sep] else ""
  {
    var parts := [first] + Split(rest, sep);
    assert parts[1..] == Split(rest, sep);
  }

  /** A text without the separator is its only piece. */
  lemma OnePiece(s: string, sep: char)
    requires s != "" && Find(s, sep) == |s|
    ensures Split(s, sep) == [s] && !EndsWith(s, sep)
  {
    assert s[..|s|] == s;
    assert s[|s| - 1] in s[..|s|];
  }

  /** The first piece, the separator and the rest. */
  lemma FirstPiece(s: string, sep: char)
    requires Find(s, sep) < |s|
    ensures var pos := Find(s, sep);
            s == s[..pos] + [sep] + s[pos + 1..] && Split(s, sep) == [s[..pos]] + Split(s[pos + 1..], sep)
  {
    CutAt(s, Find(s, sep));
  }

  lemma CutAt(s: string, pos: nat)
    requires pos < |s|
    ensures s == s[..pos] + [s[pos]] + s[pos + 1..]
  {
  }

  /** Joining the pieces gives the text back, up to one separator at its end. */
  lemma {:induction false} JoinOfSplit(s: string, sep: char)
    ensures s == Join(sep, Split(s, sep)) + if EndsWith(s, sep) then [sep] else ""
    decreases |s|
  {
    if s != "" {
      var pos := Find(s, sep);
      if pos == |s| {
        OnePiece(s, sep);
      } else {
        FirstPiece(s, sep);
        JoinOfSplit(s[pos + 1..], sep);
        JoinFirst(s[..pos], sep, s[pos + 1..]);
      }
    }
  }

  lemma SplitFirst(first: string, sep: char, rest: string)
    requires sep !in first
    ensures Split(first + [sep] + rest, sep) == [first] + Split(rest, sep)
  {
    var s := first + [sep] + rest;
    assert s[..|first|] == first && s[|first| + 1..] == rest;
    FindIs(s, sep, |first|);
  }

  /** Splitting the joined pieces gives them back, as long as the last one is not empty. */
  lemma {:induction false} SplitOfJoin(sep: char, parts: seq<string>)
    requires parts != [] && parts[|parts| - 1] != ""
    requires forall i :: 0 <= i < |parts| ==> sep !in parts[i]
    ensures Split(Join(sep, parts), sep) == parts
    decreases |parts|
  {
    var s := Join(sep, parts);
    if |parts| == 1 {
      FindIs(s, sep, |s|);
      assert s[..|s|] == s;
    } else {
      SplitOfJoin(sep, parts[1..]);
      SplitFirst(parts[0], sep, Join(sep, parts[1..]));
    }
  }

  /** An empty last piece is lost: "a:" and "a" split alike. */
  lemma SplitOfJoinLosesEmptyLast(sep: char, part: string)
    requires part != "" && sep !in part
    ensures Split(Join(sep, [part, ""]), sep) == [part] == Split(Join(sep, [part]), sep)
  {
    assert Join(sep, [part, ""]) == part + [sep] + "" by {
      assert [part, ""][1..] == [""];
    }
    SplitFirst(part, sep, "");
    assert [part] + [] == [part];
    SplitOfJoin(sep, [part]);
  }

  // ---------------------------------------------------------------- trimming

  /** isspace in the default locale. */
  predicate IsSpace(c: char) {
    c == ' ' || '\t' <= c <= '\r'
  }

  function Ltrim(s: string): string {
    if s != "" && IsSpace(s[0]) then Ltrim(s[1..]) else s
  }

  function Rtrim(s: string): string {
    if s != "" && IsSpace(s[|s| - 1]) then Rtrim(s[..|s| - 1]) else s
  }

  function Trim(s: string): string {
    Ltrim(Rtrim(s))
  }

  predicate Blank(s: string) {
    forall i :: 0 <= i < |s| ==> IsSpace(s[i])
  }

  /** No blank at either end. */
  predicate Tight(s: string) {
    s != "" ==> !IsSpace(s[0]) && !IsSpace(s[|s| - 1])
  }

  lemma {:induction false} LtrimMeans(s: string) returns (i: nat)
    ensures i <= |s| && Blank(s[..i]) && Ltrim(s) == s[i..]
    ensures Ltrim(s) != "" ==> !IsSpace(Ltrim(s)[0])
    decreases |s|
  {
    i := 0;
    if s != "" && IsSpace(s[0]) {
      i := LtrimMeans(s[1..]);
      i := i + 1;
      assert s[..i] == [s[0]] + s[1..][..i - 1];
    }
  }

  lemma {:induction false} RtrimMeans(s: string) returns (j: nat)
    ensures j <= |s| && Blank(s[j..]) && Rtrim(s) == s[..j]
    ensures Rtrim(s) != "" ==> !IsSpace(Rtrim(s)[|Rtrim(s)| - 1])
    decreases |s|
  {
    j := |s|;
    if s != "" && IsSpace(s[|s| - 1]) {
      var t := s[..|s| - 1];
      j := RtrimMeans(t);
      assert s[j..] == t[j..] + [s[|s| - 1]];
    }
  }

  /** Trimming removes blanks at both ends and nothing else. */
  lemma TrimMeans(s: string)
    ensures Tight(Trim(s))
    ensures exists i: nat, j: nat :: i <= j <= |s| && Blank(s[..i]) && Blank(s[j..]) && Trim(s) == s[i..j]
  {
    var t := Rtrim(s);
    var j := RtrimMeans(s);
    var i := LtrimMeans(t);
    assert t[i..] == s[i..j] && t[..i] == s[..i];
  }

  /** The trimming loops remove one blank after another. */
  method TrimText(text: string) returns (s: string)
    ensures s == Trim(text)
  {
    s := text;
    while s != "" && IsSpace(s[|s| - 1])
      invariant Rtrim(s) == Rtrim(text)
      decreases |s|
    {
      s := s[..|s| - 1];
    }
    while s != "" && IsSpace(s[0])
      invariant Ltrim(s) == Trim(text)
      decreases |s|
    {
      s := s[1..];
    }
  }

  // ---------------------------------------------------------------- one-character prefixes and suffixes

  function RemovePrefix(s: string, c: char): string {
    var t := Trim(s);
    if t != "" && t[0] == c then t[1..] else t
  }

  function RemoveSuffix(s: string, c: char): string {
    if EndsWith(s, c) then s[..|s| - 1] else s
  }
}
