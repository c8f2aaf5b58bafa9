/** Delimited text (HuboRT/src/utils.cpp). */
module TextComponents {

  /** The text cut at every delimiter: one piece more than there are delimiters. */
  function Pieces(text: string, delimiter: char): (pieces: seq<string>)
    ensures 1 <= |pieces| <= |text| + 1
  {
    if text == "" then [""]
    else
      var rest := Pieces(text[1..], delimiter);
      if text[0] == delimiter then [""] + rest else [[text[0]] + rest[0]] + rest[1..]
  }

  /** What split_components finds: the pieces that a delimiter ends. Text after the last delimiter is dropped. */
  function Components(text: string, delimiter: char): seq<string> {
    var pieces := Pieces(text, delimiter);
    pieces[..|pieces| - 1]
  }

  /** Each component followed by the delimiter. */
  function Terminated(components: seq<string>, delimiter: char): string {
    if components == [] then "" else components[0] + [delimiter] + Terminated(components[1..], delimiter)
  }

  lemma TerminatedFrom(components: seq<string>, d: char, i: nat)
    requires i <= |components|
    ensures Terminated(components[i..], d)
      == if i < |components| then components[i] + [d] + Terminated(components[i + 1..], d) else ""
  {
    if i < |components| {
      assert components[i..][1..] == components[i + 1..];
    }
  }

  predicate Without(text: string, c: char) {
    c !in text
  }

  /** A piece ends at its delimiter. */
  lemma {:induction false} PieceEnds(piece: string, rest: string, d: char)
    requires Without(piece, d)
    ensures Pieces(piece + [d] + rest, d) == [piece] + Pieces(rest, d)
    ensures Pieces(piece, d) == [piece]
  {
    var text := piece + [d] + rest;
    if piece == "" {
      assert text[1..] == rest;
    } else {
      PieceEnds(piece[1..], rest, d);
      assert text[1..] == piece[1..] + [d] + rest;
      assert [piece[0]] + piece[1..] == piece;
    }
  }

  lemma {:induction false} PiecesAreClean(text: string, d: char)
    ensures forall i :: 0 <= i < |Pieces(text, d)| ==> Without(Pieces(text, d)[i], d)
  {
    if text != "" {
      PiecesAreClean(text[1..], d);
    }
  }

  /** Text from its pieces. */
  function Joined(pieces: seq<string>, d: char): string
    requires pieces != []
  {
    Terminated(pieces[..|pieces| - 1], d) + pieces[|pieces| - 1]
  }

  lemma JoinedGrows(rest: seq<string>, d: char, c: char)
    requires rest != []
    ensures Joined([""] + rest, d) == [d] + Joined(rest, d)
    ensures Joined([[c] + rest[0]] + rest[1..], d) == [c] + Joined(rest, d)
  {
    var shorter := rest[..|rest| - 1];
    assert ([""] + rest)[..|rest|] == [""] + shorter && ([""] + shorter)[1..] == shorter;
    if 1 < |rest| {
      var grown := [c] + rest[0];
      assert ([grown] + rest[1..])[..|rest| - 1] == [grown] + shorter[1..];
      assert ([grown] + shorter[1..])[1..] == shorter[1..];
    }
  }

  /** Nothing is lost: the components, each with its delimiter, and the rest make up the text. */
  lemma {:induction false} PiecesMakeText(text: string, d: char)
    ensures Joined(Pieces(text, d), d) == text
  {
    hide Joined;
    if text == "" {
      assert Joined([""], d) == "" by { JoinedOne("", d); }
    } else {
      PiecesMakeText(text[1..], d);
      JoinedGrows(Pieces(text[1..], d), d, text[0]);
      assert [text[0]] + text[1..] == text;
    }
  }

  lemma JoinedOne(piece: string, d: char)
    ensures Joined([piece], d) == piece
  {}

  /** Reading back what was written gives the same components, for components without the delimiter. */
  lemma {:induction false} ComponentsOfTerminated(components: seq<string>, d: char)
    requires forall i :: 0 <= i < |components| ==> Without(components[i], d)
    ensures Components(Terminated(components, d), d) == components
  {
    if components != [] {
      ComponentsOfTerminated(components[1..], d);
      PieceEnds(components[0], Terminated(components[1..], d), d);
      assert [components[0]] + components[1..] == components;
    }
  }

  /** Writing back what was read gives the same text exactly when no text follows the last delimiter. */
  lemma TerminatedOfComponents(text: string, d: char)
    ensures Terminated(Components(text, d), d) == text <==> text == "" || text[|text| - 1] == d
  {
    PiecesMakeText(text, d);
    PiecesAreClean(text, d);
    var pieces := Pieces(text, d);
    TerminatedEnds(Components(text, d), d);
    assert text != "" && pieces[|pieces| - 1] != "" ==>
      text[|text| - 1] == pieces[|pieces| - 1][|pieces[|pieces| - 1]| - 1];
  }

  lemma {:induction false} TerminatedEnds(components: seq<string>, d: char)
    ensures var text := Terminated(components, d); text == "" || text[|text| - 1] == d
  {
    if components != [] {
      TerminatedEnds(components[1..], d);
    }
  }

  /** A character of the written text is a delimiter, or comes from a component. */
  lemma {:induction false} TerminatedHasNo(components: seq<string>, d: char, c: char)
    requires c != d && forall i :: 0 <= i < |components| ==> Without(components[i], c)
    ensures Without(Terminated(components, d), c)
  {
    if components != [] {
      TerminatedHasNo(components[1..], d, c);
    }
  }

  lemma {:induction false} PiecesHaveNo(text: string, d: char, c: char)
    requires Without(text, c)
    ensures forall i :: 0 <= i < |Pieces(text, d)| ==> Without(Pieces(text, d)[i], c)
  {
    if text != "" {
      PiecesHaveNo(text[1..], d, c);
    }
  }

  /** The next delimiter, from a position on. */
  method Find(text: string, delimiter: char, from: nat) returns (found: bool, pos: nat)
    requires from <= |text|
    ensures from <= pos <= |text|
    ensures Without(text[from..pos], delimiter)
    ensures if found then pos < |text| && text[pos] == delimiter else pos == |text|
  {
    pos := from;
    while pos < |text| && text[pos] != delimiter
      invariant from <= pos <= |text| && Without(text[from..pos], delimiter)
    {
      pos := pos + 1;
    }
    found := pos < |text|;
  }

  /** The rest of the text is cut at its next delimiter. */
  lemma CutAt(text: string, d: char, from: nat, pos: nat)
    requires from <= pos <= |text| && Without(text[from..pos], d)
    ensures pos < |text| && text[pos] == d ==> Pieces(text[from..], d) == [text[from..pos]] + Pieces(text[pos + 1..], d)
    ensures pos == |text| ==> Pieces(text[from..], d) == [text[from..]]
  {
    hide Pieces;
    if pos == |text| {
      assert text[from..pos] == text[from..];
      PieceEnds(text[from..], "", d);
    } else if text[pos] == d {
      PieceEnds(text[from..pos], text[pos + 1..], d);
      assert text[from..] == text[from..pos] + [d] + text[pos + 1..];
    }
  }

  method SplitComponents(text: string, delimiter: char) returns (components: seq<string>, count: nat)
    ensures components == Components(text, delimiter) && count == |components|
  {
    hide Pieces, Without;
    components, count := [], 0;
    var last := 0;
    var found, pos := Find(text, delimiter, 0);
    assert text[0..] == text;
    while found
      invariant last <= pos <= |text| && count == |components|
      invariant Pieces(text, delimiter) == components + Pieces(text[last..], delimiter)
      invariant Without(text[last..pos], delimiter)
      invariant if found then pos < |text| && text[pos] == delimiter else pos == |text|
      decreases |text| - last
    {
      CutAt(text, delimiter, last, pos);
      count := count + 1;
      components := components + [text[last..pos]];
      last := pos + 1;
      found, pos := Find(text, delimiter, last);
    }
    CutAt(text, delimiter, last, pos);
  }
}
