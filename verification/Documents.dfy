/** YAML documents: printed one after the other, and split again at the lines `---`. */
module Documents {
  const SEPARATOR := "---"

  /** A line that is exactly the separator begins here. */
  predicate SeparatorAt(s: string, p: nat) {
    && p + 3 <= |s| && s[p..p + 3] == SEPARATOR
    && (p == 0 || s[p - 1] == '\n')
    && (p + 3 == |s| || s[p + 3] == '\n')
  }

  predicate LineStart(pre: string) {
    pre == "" || pre[|pre| - 1] == '\n'
  }

  predicate LineEnd(rest: string) {
    rest == "" || rest[0] == '\n'
  }

  /** In any line of a text a separator begins where the line does, and exactly if the line is `---`. */
  lemma {:induction false} SeparatorIsLine(pre: string, line: string, rest: string, k: nat)
    requires '\n' !in line && LineStart(pre) && LineEnd(rest) && k <= |line|
    ensures SeparatorAt(pre + line + rest, |pre| + k) <==> k == 0 && line == "---"
  {
    var s, p := pre + line + rest, |pre| + k;
    assert forall i :: 0 <= i < |line| ==> s[|pre| + i] == line[i] && line[i] in line;
    if k > 0 { assert s[p - 1] == line[k - 1]; }
    if |line| < k + 3 && |s| > |pre| + |line| { assert s[|pre| + |line|] == '\n'; }
    if SeparatorAt(s, p) { InOneLine(pre, line, rest, k); }
    if line == "---" { assert s[|pre|..|pre| + 3] == line; }
  }

  lemma {:induction false} InOneLine(pre: string, line: string, rest: string, k: nat)
    requires '\n' !in line && LineEnd(rest) && k <= |line| && SeparatorAt(pre + line + rest, |pre| + k)
    ensures |line| == k + 3 && line[k..] == "---"
  {
    var s, p := pre + line + rest, |pre| + k;
    assert s[p..p + 3] == "---";
    assert s[p] == '-' && s[p + 1] == '-' && s[p + 2] == '-';
    assert |s| > |pre| + |line| ==> s[|pre| + |line|] == '\n';
    assert forall i :: 0 <= i < |line| ==> s[|pre| + i] == line[i] && line[i] in line;
    assert line[k..k + 3] == s[p..p + 3];
  }

  /** The pieces between separators, the current one begun at `beg` and read up to `p`. */
  function Pieces(s: string, beg: nat, p: nat): seq<string>
    requires beg <= p <= |s|
    decreases |s| - p
  {
    if p == |s| then [s[beg..]]
    else if SeparatorAt(s, p) then [s[beg..p]] + Pieces(s, p + 3, p + 3)
    else Pieces(s, beg, p + 1)
  }

  function Joined(pieces: seq<string>): string
    requires pieces != []
  {
    if |pieces| == 1 then pieces[0] else pieces[0] + SEPARATOR + Joined(pieces[1..])
  }

  /** Splitting loses nothing: the pieces with the separators put back are the text. */
  lemma {:induction false} PiecesJoin(s: string, beg: nat, p: nat)
    requires beg <= p <= |s|
    ensures Pieces(s, beg, p) != [] && Joined(Pieces(s, beg, p)) == s[beg..]
    decreases |s| - p
  {
    if p == |s| {
    } else if SeparatorAt(s, p) {
      PiecesJoin(s, p + 3, p + 3);
      assert Pieces(s, beg, p)[1..] == Pieces(s, p + 3, p + 3);
      assert s[beg..p] + s[p..p + 3] + s[p + 3..] == s[beg..];
    } else {
      PiecesJoin(s, beg, p + 1);
    }
  }

  /** Nothing but newlines, tabs and spaces. */
  predicate Blank(s: string) {
    forall i :: 0 <= i < |s| ==> s[i] in "\n\t "
  }

  function NotBlank(pieces: seq<string>): seq<string> {
    if pieces == [] then [] else (if Blank(pieces[0]) then [] else [pieces[0]]) + NotBlank(pieces[1..])
  }

  /** What `strings.Trim` leaves: the text without the characters of the cutset at both ends. */
  function Trim(s: string, cutset: string): string {
    if s == "" then ""
    else if s[0] in cutset then Trim(s[1..], cutset)
    else if s[|s| - 1] in cutset then Trim(s[..|s| - 1], cutset)
    else s
  }

  /** Blank texts are those nothing is left of when newlines, tabs and spaces are trimmed. */
  lemma {:induction false} BlankIsTrimmed(s: string)
    ensures Blank(s) <==> Trim(s, "\n\t ") == ""
    decreases |s|
  {
    if s == "" {
    } else if s[0] in "\n\t " {
      BlankIsTrimmed(s[1..]);
      assert Blank(s[1..]) ==> forall i :: 0 < i < |s| ==> s[i] == s[1..][i - 1];
      assert Blank(s) ==> forall i :: 0 <= i < |s| - 1 ==> s[1..][i] == s[i + 1];
    } else if s[|s| - 1] in "\n\t " {
      BlankIsTrimmed(s[..|s| - 1]);
      assert s[..|s| - 1][0] == s[0];
    }
  }

  lemma {:induction false} NotBlankIs(pieces: seq<string>)
    ensures forall d :: d in NotBlank(pieces) <==> d in pieces && !Blank(d)
  {
    if pieces == [] {
    } else {
      NotBlankIs(pieces[1..]);
    }
  }

  /** Order and repetitions are kept: lists of pieces can be taken apart anywhere. */
  lemma {:induction false} NotBlankJoin(a: seq<string>, b: seq<string>)
    ensures NotBlank(a + b) == NotBlank(a) + NotBlank(b)
  {
    if a == [] {
      assert a + b == b;
    } else {
      assert (a + b)[1..] == a[1..] + b;
      NotBlankJoin(a[1..], b);
    }
  }

  lemma {:induction false} NotBlankNext(documents: seq<string>, pieces: seq<string>, i: nat)
    requires i < |pieces|
    ensures documents + NotBlank(pieces[i..]) ==
      (if Blank(pieces[i]) then documents else documents + [pieces[i]]) + NotBlank(pieces[i + 1..])
  {
    assert pieces[i..][1..] == pieces[i + 1..];
  }

  method SplitDocuments(manifests: string) returns (documents: seq<string>)
    ensures documents == NotBlank(Pieces(manifests, 0, 0))
    ensures forall d :: d in documents <==> d in Pieces(manifests, 0, 0) && !Blank(d)
  {
    documents := [];
    var pieces := Pieces(manifests, 0, 0);
    for i := 0 to |pieces|
      invariant documents + NotBlank(pieces[i..]) == NotBlank(pieces)
    {
      NotBlankNext(documents, pieces, i);
      if !Blank(pieces[i]) { documents := documents + [pieces[i]]; }
    }
    NotBlankIs(pieces);
  }

  /** `Specs`: each document after a separator line. */
  function Printed(documents: seq<string>): string {
    if documents == [] then "" else SEPARATOR + "\n" + documents[0] + Printed(documents[1..])
  }

  method Print(documents: seq<string>) returns (text: string)
    ensures text == Printed(documents)
  {
    text := "";
    for i := 0 to |documents|
      invariant text + Printed(documents[i..]) == Printed(documents)
    {
      assert documents[i..][1..] == documents[i + 1..];
      text := text + (SEPARATOR + "\n" + documents[i]);
    }
  }

  /** A document that can be told apart: not blank, ended by a newline, and without a line that is the separator. */
  predicate Plain(d: string) {
    !Blank(d) && d != "" && d[|d| - 1] == '\n' && forall p :: 0 <= p <= |d| ==> !SeparatorAt(d, p)
  }

  function Indented(documents: seq<string>): seq<string> {
    seq(|documents|, i requires 0 <= i < |documents| => "\n" + documents[i])
  }

  lemma {:induction false} Skip(s: string, beg: nat, p: nat, q: nat)
    requires beg <= p <= q <= |s| && forall x :: p <= x < q ==> !SeparatorAt(s, x)
    ensures Pieces(s, beg, p) == Pieces(s, beg, q)
    decreases q - p
  {
    if p == q {
    } else {
      Skip(s, beg, p + 1, q);
    }
  }

  /** A separator inside a printed document is one of the document itself. */
  lemma {:induction false} Inside(pre: string, d: string, rest: string, p: nat)
    requires d != "" && d[|d| - 1] == '\n' && p < |d|
    ensures SeparatorAt(pre + "\n" + d + rest, |pre| + 1 + p) ==> SeparatorAt(d, p)
  {
    var s := pre + "\n" + d + rest;
    var x := |pre| + 1 + p;
    assert s[x - 1] == if p == 0 then '\n' else d[p - 1];
    assert s[|pre| + |d|] == d[|d| - 1] == '\n';
    if SeparatorAt(s, x) {
      assert s[x] == '-' && s[x + 1] == '-' && s[x + 2] == '-' by { assert s[x..x + 3] == "---"; }
      assert p + 3 < |d|;
      assert s[x..x + 3] == d[p..p + 3];
      assert s[x + 3] == d[p + 3];
    }
  }

  lemma {:induction false} NewlineIsNoSeparator(s: string, x: nat)
    requires x < |s| && s[x] == '\n'
    ensures !SeparatorAt(s, x)
  {
    assert x + 3 <= |s| ==> s[x..x + 3][0] == '\n';
  }

  lemma {:induction false} NoneUpTo(pre: string, d: string, rest: string, s: string, x: nat)
    requires Plain(d) && s == pre + "\n" + d + rest && |pre| <= x < |pre| + 1 + |d|
    ensures !SeparatorAt(s, x)
  {
    if x == |pre| {
      NewlineIsNoSeparator(s, x);
    } else {
      Inside(pre, d, rest, x - |pre| - 1);
      assert !SeparatorAt(d, x - |pre| - 1);
    }
  }

  /** Splitting passes over a separator and the whole document after it. */
  lemma {:induction false} OnePiece(pre: string, d: string, rest: string, s: string, beg: nat)
    requires LineStart(pre) && beg <= |pre| && Plain(d) && s == (pre + SEPARATOR) + "\n" + d + rest
    ensures |pre| + 4 + |d| <= |s|
    ensures Pieces(s, beg, |pre|) == [pre[beg..]] + Pieces(s, |pre| + 3, |pre| + 4 + |d|)
  {
    assert SeparatorAt(s, |pre|) by {
      AtSeparator(pre, "\n" + d + rest);
      assert s == pre + SEPARATOR + ("\n" + d + rest);
    }
    forall x | |pre| + 3 <= x < |pre| + 4 + |d| ensures !SeparatorAt(s, x) { NoneUpTo(pre + SEPARATOR, d, rest, s, x); }
    Skip(s, |pre| + 3, |pre| + 3, |pre| + 4 + |d|);
    assert s[beg..|pre|] == pre[beg..];
  }

  /** The text up to the end of the next document. */
  function Through(pre: string, d: string): string {
    (pre + SEPARATOR) + "\n" + d
  }

  lemma {:induction false} ThroughIs(pre: string, d: string, rest: string)
    ensures pre + (SEPARATOR + "\n" + d + rest) == Through(pre, d) + rest
    ensures |Through(pre, d)| == |pre| + 4 + |d| && Through(pre, d)[|pre| + 3..] == "\n" + d
    ensures d != "" ==> Through(pre, d)[|Through(pre, d)| - 1] == d[|d| - 1]
  {
  }

  lemma {:induction false} Advance(pre: string, d: string, rest: string, s: string, beg: nat)
    requires LineStart(pre) && beg <= |pre| && Plain(d) && s == pre + (SEPARATOR + "\n" + d + rest)
    ensures var next := Through(pre, d);
      && s == next + rest && LineStart(next) && |pre| + 3 <= |next| <= |s| && next[|pre| + 3..] == "\n" + d
      && Pieces(s, beg, |pre|) == [pre[beg..]] + Pieces(s, |pre| + 3, |next|)
  {
    ThroughIs(pre, d, rest);
    OnePiece(pre, d, rest, s, beg);
  }

  ghost predicate AllPlain(documents: seq<string>) {
    forall d :: d in documents ==> Plain(d)
  }

  lemma {:induction false} PiecesOfPrinted(pre: string, documents: seq<string>, beg: nat, s: string)
    requires LineStart(pre) && beg <= |pre| && AllPlain(documents) && s == pre + Printed(documents)
    ensures Pieces(s, beg, |pre|) == [pre[beg..]] + Indented(documents)
    decreases |documents|
  {
    if documents == [] {
      assert s == pre;
    } else {
      Advance(pre, documents[0], Printed(documents[1..]), s, beg);
      PiecesOfPrinted(Through(pre, documents[0]), documents[1..], |pre| + 3, s);
      FirstPieces(pre[beg..], documents);
    }
  }

  lemma {:induction false} FirstPieces(piece: string, documents: seq<string>)
    requires documents != []
    ensures [piece] + (["\n" + documents[0]] + Indented(documents[1..])) == [piece] + Indented(documents)
  {
    IndentedFirst(documents);
  }

  lemma {:induction false} IndentedFirst(documents: seq<string>)
    requires documents != []
    ensures Indented(documents) == ["\n" + documents[0]] + Indented(documents[1..])
  {
  }

  lemma {:induction false} AtSeparator(pre: string, rest: string)
    requires LineStart(pre) && rest != "" && rest[0] == '\n'
    ensures SeparatorAt(pre + SEPARATOR + rest, |pre|)
  {
    var s := pre + SEPARATOR + rest;
    assert s[|pre|..|pre| + 3] == SEPARATOR;
    assert s[|pre| + 3] == rest[0];
  }

  lemma {:induction false} AllNotBlank(pieces: seq<string>)
    requires forall i :: 0 <= i < |pieces| ==> !Blank(pieces[i])
    ensures NotBlank(pieces) == pieces
  {
    if pieces == [] {
    } else {
      AllNotBlank(pieces[1..]);
    }
  }

  lemma {:induction false} IndentedNotBlank(documents: seq<string>, i: nat)
    requires AllPlain(documents) && i < |documents|
    ensures !Blank(Indented(documents)[i])
  {
    assert documents[i] in documents;
    var k :| 0 <= k < |documents[i]| && documents[i][k] !in "\n\t ";
    assert Indented(documents)[i][k + 1] == documents[i][k];
  }

  /** Splitting what was printed gives the documents back, in order, each after one newline. */
  lemma {:induction false} SplitOfPrinted(documents: seq<string>)
    requires AllPlain(documents)
    ensures NotBlank(Pieces(Printed(documents), 0, 0)) == Indented(documents)
  {
    PiecesOfPrinted("", documents, 0, Printed(documents));
    var pieces := Pieces(Printed(documents), 0, 0);
    assert pieces[1..] == Indented(documents);
    forall i | 0 <= i < |Indented(documents)| ensures !Blank(Indented(documents)[i]) { IndentedNotBlank(documents, i); }
    AllNotBlank(Indented(documents));
  }
}
