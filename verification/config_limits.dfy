/**
  Exactly which configurations come back from their print: the converse of the round trip.
 */
module ConfigLimits {
  import opened Options
  import opened Sequences
  import opened CStrings
  import opened ConfigModel
  import opened LineReader
  import opened ConfigPrint

  /** `c` is read back from its own print, whatever configuration the print is read into. */
  ghost predicate RoundTrips(c: Values) {
    forall d :: Parse(d, Pieces(Printed(c), ROOM)) == Parsed(true, c)
  }

  // ---- What an assigned text looks like ----

  lemma StripWithin(t: string)
    ensures var v := RStrip(LStrip(t, BLANKS), BLANKS);
            |v| <= |t| && AllIn(v, t) && (t != [] && t[0] in BLANKS ==> |v| < |t|)
  {
    hide LStrip, RStrip;
    var n := LStripDrops(t);
    var v := RStrip(t[n..], BLANKS);
    assert v <= t[n..];
    forall k | 0 <= k < |v|
      ensures v[k] in t
    {
      assert v[k] == t[n..][k] == t[n + k];
    }
  }

  /** Where the parts of a split line lie. */
  lemma SplitParts(line: string)
    requires Split(line).Some?
    ensures var kv := Split(line).value;
            var i := Find(line, '=');
            && i < |line|
            && |kv.key| <= i
            && Trimmed(kv.value) && AllIn(kv.value, line)
            && |kv.value| + i + 1 <= |line|
            && (i + 1 < |line| && line[i + 1] in BLANKS ==> |kv.value| + i + 2 <= |line|)
  {
    hide Find, LStrip, RStrip, AllIn;
    var t := line[Find(line, '=') + 1..];
    StripWithin(t);
    StrippedIsTrimmed(t);
    AllInTail(RStrip(LStrip(t, BLANKS), BLANKS), line, Find(line, '=') + 1);
  }

  lemma AllInTail(v: string, line: string, n: nat)
    requires n <= |line| && AllIn(v, line[n..])
    ensures AllIn(v, line)
  {
  }

  /** An assigned text is trimmed, taken from its line, and leaves room for the key and the '='. */
  lemma AssignedText(piece: string, f: Field, s: string)
    requires IsText(f) && Assigns(piece, f) == Some(Text(s))
    ensures Trimmed(s) && AllIn(s, LineOf(piece))
    ensures |KeyOf(f)| + 1 + |s| <= |LineOf(piece)|
    ensures var line := LineOf(piece);
            var i := Find(line, '=');
            i < |line| && |s| + i + 1 <= |line| &&
            (i + 1 < |line| && line[i + 1] in BLANKS ==> |s| + i + 2 <= |line|)
  {
    SplitParts(LineOf(piece));
    hide KeyOf, LineOf, Split, Find, AllIn, Trimmed;
  }

  /** A piece has a newline at its end or nowhere, so its line has none. */
  lemma NoNewlineInside(s: string, room: nat)
    requires room > 0
    ensures '\n' !in LineOf(s[..PieceLength(s, room)])
  {
    var n := PieceLength(s, room);
    PieceLengthIs(s, room);
    var piece := s[..n];
    var cut := Cut(piece);
    RStripMaximal(cut, "\r\n", RStrip(cut, "\r\n"));
    assert forall i :: 0 <= i < |piece| - 1 ==> piece[i] != '\n';
  }

  lemma {:induction false} NoNewlines(s: string, room: nat, j: nat)
    requires room > 0 && j < |Pieces(s, room)|
    ensures '\n' !in LineOf(Pieces(s, room)[j])
    decreases |s|
  {
    if j == 0 {
      NoNewlineInside(s, room);
    } else {
      NoNewlines(s[PieceLength(s, room)..], room, j - 1);
    }
  }

  lemma {:induction false} Witness(pieces: seq<string>, f: Field) returns (j: nat)
    requires LastAssigned(pieces, f).Some?
    ensures j < |pieces| && Assigns(pieces[j], f) == LastAssigned(pieces, f)
  {
    j := |pieces| - 1;
    if Assigns(pieces[j], f).None? {
      j := Witness(pieces[..j], f);
    }
  }

  // ---- Pieces of a file put together from lines ----

  lemma FirstPieceConcat(x: string, y: string, room: nat)
    requires room > 0 && x != [] && x[|x| - 1] == '\n'
    ensures var n := PieceLength(x, room);
            && PieceLength(x + y, room) == n
            && (x + y)[..n] == x[..n]
            && (x + y)[n..] == x[n..] + y
  {
    hide PieceLength;
    PieceLengthIs(x, room);
    PieceLengthIs(x + y, room);
    FindUnique(x + y, '\n', Find(x, '\n'));
  }

  lemma {:induction false} PiecesConcat(x: string, y: string, room: nat)
    requires room > 0 && (x != [] ==> x[|x| - 1] == '\n')
    ensures Pieces(x + y, room) == Pieces(x, room) + Pieces(y, room)
    decreases |x|
  {
    hide PieceLength, Pieces;
    if x == [] {
      assert x + y == y;
      PiecesUnfold(x, room);
      assert [] + Pieces(y, room) == Pieces(y, room);
    } else {
      var n := PieceLength(x, room);
      FirstPieceConcat(x, y, room);
      PiecesConcat(x[n..], y, room);
      PiecesUnfold(x, room);
      PiecesUnfold(x + y, room);
      Associative([x[..n]], Pieces(x[n..], room), Pieces(y, room));
    }
  }

  lemma {:induction false} PiecesShrink(s: string, room: nat, j: nat)
    requires room > 0 && j < |Pieces(s, room)|
    ensures Pieces(s, room)[0] == s[..PieceLength(s, room)]
    ensures |Pieces(s, room)[j]| <= |s|
    ensures j > 0 ==> |Pieces(s, room)[j]| + PieceLength(s, room) <= |s|
    decreases |s|
  {
    if j > 0 {
      PiecesShrink(s[PieceLength(s, room)..], room, j - 1);
    }
  }

  /** The file up to line `k`, that line, and the file after it. */
  lemma {:induction false} JoinedAround(ls: seq<string>, k: nat)
    requires k < |ls|
    ensures Joined(ls) == Joined(ls[..k]) + (ls[k] + "\n" + Joined(ls[k + 1..]))
    ensures Joined(ls[..k]) != [] ==> Joined(ls[..k])[|Joined(ls[..k])| - 1] == '\n'
  {
    if k > 0 {
      assert ls[..k][1..] == ls[1..][..k - 1];
      JoinedAround(ls[1..], k - 1);
    }
  }

  // ---- Good lines after a bad one do not hide it ----

  predicate GoodField(c: Values, f: Field) {
    GoodShow(f, Show(Get(c, f)))
  }

  lemma JoinedFirst(c: Values, fs: seq<Field>)
    requires fs != []
    ensures Joined(LinesOf(c, fs)) == Line(c, fs[0]) + "\n" + Joined(LinesOf(c, fs[1..]))
  {
    hide Line;
    assert LinesOf(c, fs)[1..] == LinesOf(c, fs[1..]);
  }

  lemma {:induction false} OthersAssignNothing(c: Values, fs: seq<Field>, f: Field)
    requires f !in fs && forall g :: g in fs ==> GoodField(c, g)
    ensures LastAssigned(Pieces(Joined(LinesOf(c, fs)), ROOM), f) == None
  {
    if fs != [] {
      JoinedFirst(c, fs);
      hide Joined, LinesOf, Line, GoodField, Pieces, Assigns;
      OthersAssignNothing(c, fs[1..], f);
      OneLineAssignsNothing(c, fs[0], f, Joined(LinesOf(c, fs[1..])));
    }
  }

  lemma OneLineAssignsNothing(c: Values, g: Field, f: Field, rest: string)
    requires f != g && GoodField(c, g)
    ensures LastAssigned(Pieces(Line(c, g) + "\n" + rest, ROOM), f)
            == LastAssigned(Pieces(rest, ROOM), f)
  {
    hide LineOf, Lines, Assigns, KeyOf, Pieces, Show, Get;
    var line := Line(c, g);
    var s := line + "\n" + rest;
    LineAssigns(g, Show(Get(c, g)), f);
    KeysPlain(g);
    PlainLine(KeyOf(g), Show(Get(c, g)));
    FindUnique(s, '\n', |line|);
    FirstLine(s, ROOM);
    assert s[..|line|] == line && s[|line| + 1..] == rest;
    SameLine(line + "\n", line, f);
    SameLine("\n", "", f);
    LastAssignedCons(line + "\n", Pieces(rest, ROOM), f);
    LastAssignedCons("\n", Pieces(rest, ROOM), f);
    LastAssignedCons(line, ["\n"] + Pieces(rest, ROOM), f);
  }

  lemma SameLine(piece: string, line: string, f: Field)
    requires piece == line + "\n"
    ensures Assigns(piece, f) == Assigns(line, f)
    ensures line == "" ==> Assigns(piece, f) == None
  {
    NewlineIgnored(line);
    assert line == "" ==> LineOf(line) == "";
  }

  // ---- The first line that is not good ----

  /** A text that ends in CR, or does not fit. */
  predicate Lossy(f: Field, s: string) {
    (s != [] && s[|s| - 1] == '\r') || |KeyOf(f)| + 3 + |s| > ROOM
  }

  /** Stripping line ends off a piece of a line keeps what is before other characters. */
  lemma LineEnds(piece: string, text: string, i: nat)
    requires piece <= text + "\n" && i < |piece| && i < |text| && text[i] !in "\r\n"
    ensures var line := RStrip(piece, "\r\n");
            && line <= text && i < |line|
            && (text[|text| - 1] == '\r' || |piece| < |text| ==> |line| < |text|)
  {
    var line := RStrip(piece, "\r\n");
    RStripMaximal(piece, "\r\n", line);
    hide RStrip;
    assert forall k :: 0 <= k < |piece| ==> piece[k] == (text + "\n")[k];
    forall k | |line| <= k < |piece|
      ensures piece[k] in "\r\n"
    {
      assert piece[k] == piece[|line|..][k - |line|];
    }
    assert piece[i] == text[i];
  }

  /** The line that the first piece of a printed line denotes starts with the key and the '='. */
  lemma FirstPieceLine(f: Field, s: string)
    requires NulFree(s) && '\n' !in s
    ensures var whole := TextLine(f, s) + "\n";
            var line := LineOf(whole[..PieceLength(whole, ROOM)]);
            && line <= TextLine(f, s) && |line| <= ROOM
            && |KeyOf(f)| + 1 < |line|
            && Find(line, '=') == |KeyOf(f)| + 1
            && (Lossy(f, s) ==> |line| < |TextLine(f, s)|)
  {
    hide KeyOf, Matches, PieceLength, Find, Cut, RStrip;
    KeysPlain(f);
    var text := TextLine(f, s);
    var whole := text + "\n";
    var i := |KeyOf(f)| + 1;
    PlainLine(KeyOf(f), s);
    FindUnique(whole, '\n', |text|);
    PieceLengthIs(whole, ROOM);
    var piece := whole[..PieceLength(whole, ROOM)];
    assert text[i] == '=';
    LineEnds(piece, text, i);
    CutWhole(piece);
    FindUnique(LineOf(piece), '=', i);
  }

  lemma LineNoLonger(piece: string)
    ensures |LineOf(piece)| <= |piece|
  {
  }

  /** A line that loses part of its text assigns its setting, but only texts that are shorter. */
  lemma LossyLine(f: Field, s: string)
    requires IsText(f) && NulFree(s) && '\n' !in s && Lossy(f, s)
    ensures var last := LastAssigned(Pieces(TextLine(f, s) + "\n", ROOM), f);
            last.Some? && last != Some(Text(s))
  {
    hide PieceLength, LineOf, Lossy;
    var whole := TextLine(f, s) + "\n";
    var pieces := Pieces(whole, ROOM);
    assert pieces[0] == whole[..PieceLength(whole, ROOM)];
    FirstPieceLine(f, s);
    FirstAssigns(f, s, pieces[0]);
    assert pieces == [pieces[0]] + pieces[1..];
    LastAssignedCons(pieces[0], pieces[1..], f);
    hide Pieces, LastAssigned;
    var j := Witness(pieces, f);
    if Assigns(pieces[j], f) == Some(Text(s)) {
      NotThisOne(f, s, j);
    }
  }

  lemma FirstAssigns(f: Field, s: string, piece: string)
    requires IsText(f)
    requires var line := LineOf(piece);
             && line <= TextLine(f, s)
             && |KeyOf(f)| + 1 < |line|
             && Find(line, '=') == |KeyOf(f)| + 1
    ensures Assigns(piece, f).Some?
  {
    hide KeyOf, Matches, Find, LineOf;
    KeysPlain(f);
    var line := LineOf(piece);
    var key := KeyOf(f);
    assert line[..|key| + 1] == key + " ";
    RStripMaximal(key + " ", BLANKS, key);
    hide RStrip, LStrip;
    assert line[0] == key[0];
  }

  lemma NotThisOne(f: Field, s: string, j: nat)
    requires IsText(f) && NulFree(s) && '\n' !in s && Lossy(f, s)
    requires j < |Pieces(TextLine(f, s) + "\n", ROOM)|
    ensures Assigns(Pieces(TextLine(f, s) + "\n", ROOM)[j], f) != Some(Text(s))
  {
    hide Pieces, PieceLength, LineOf, Assigns;
    var whole := TextLine(f, s) + "\n";
    var piece := Pieces(whole, ROOM)[j];
    PiecesShrink(whole, ROOM, j);
    FirstPieceLine(f, s);
    LineNoLonger(piece);
    PieceLengthOf(f, s);
    if Assigns(piece, f) == Some(Text(s)) {
      AssignedText(piece, f, s);
    }
  }

  lemma PieceLengthOf(f: Field, s: string)
    requires '\n' !in s
    ensures var n := |TextLine(f, s)| + 1;
            PieceLength(TextLine(f, s) + "\n", ROOM) == if n <= ROOM then n else ROOM
  {
    hide KeyOf, Matches, PieceLength;
    KeysPlain(f);
    PlainLine(KeyOf(f), s);
    FindUnique(TextLine(f, s) + "\n", '\n', |TextLine(f, s)|);
    PieceLengthIs(TextLine(f, s) + "\n", ROOM);
  }

  // ---- The converse ----

  lemma Another(c: Values, f: Field) returns (d: Values)
    ensures Get(d, f) != Get(c, f)
  {
    var x := if IsText(f) then Text(Get(c, f).text + "x") else Number(Get(c, f).number + 1);
    d := Set(c, f, x);
  }

  /** If a print comes back, each setting is the last one assigned in it. */
  lemma LastIsOwn(c: Values, f: Field)
    requires RoundTrips(c)
    ensures LastAssigned(Pieces(Printed(c), ROOM), f) == Some(Get(c, f))
  {
    hide Get, Assigns, Pieces, Printed, LastAssigned, Parse;
    var d := Another(c, f);
    var pieces := Pieces(Printed(c), ROOM);
    assert Parse(d, pieces) == Parsed(true, c);
    LastAssignmentWins(d, pieces, f);
    assert pieces[..ReadablePrefix(pieces)] == pieces;
  }

  /** What comes back is in range, trimmed and on one line. */
  lemma ComesFromALine(c: Values, f: Field)
    requires RoundTrips(c)
    ensures if IsText(f) then Trimmed(Get(c, f).text) && '\n' !in Get(c, f).text
            else Low(f) <= Get(c, f).number <= High(f)
  {
    LastIsOwn(c, f);
    var pieces := Pieces(Printed(c), ROOM);
    LastAssignedInRangeOrText(pieces, f);
    hide Get, Assigns, Pieces, Printed, LastAssigned, LineOf;
    var j := Witness(pieces, f);
    NoNewlines(Printed(c), ROOM, j);
    if IsText(f) {
      AssignedText(pieces[j], f, Get(c, f).text);
    }
  }

  lemma LastAssignedInRangeOrText(pieces: seq<string>, f: Field)
    ensures !IsText(f) && LastAssigned(pieces, f).Some? ==>
              && LastAssigned(pieces, f).value.Number?
              && Low(f) <= LastAssigned(pieces, f).value.number <= High(f)
  {
    if !IsText(f) {
      LastAssignedInRange(pieces, f);
    }
  }

  /** Line `k` is good if the lines after it are: nothing after it could restore its setting. */
  lemma LineIsGood(c: Values, k: nat)
    requires NulFreeTexts(c) && RoundTrips(c) && k < |KEY_MAP|
    requires forall i :: k < i < |KEY_MAP| ==> GoodField(c, KEY_MAP[i])
    ensures GoodField(c, KEY_MAP[k])
  {
    var f := KEY_MAP[k];
    hide Low, High, KeyOf, Get;
    ComesFromALine(c, f);
    if !IsText(f) {
      NumberShowsWell(f, Get(c, f).number);
    } else if Lossy(f, Get(c, f).text) {
      LastIsOwn(c, f);
      LossyLast(c, k);
      assert false;
    }
  }

  lemma LossyLast(c: Values, k: nat)
    requires k < |KEY_MAP| && IsText(KEY_MAP[k])
    requires var s := Get(c, KEY_MAP[k]).text; NulFree(s) && '\n' !in s && Lossy(KEY_MAP[k], s)
    requires forall i :: k < i < |KEY_MAP| ==> GoodField(c, KEY_MAP[i])
    ensures LastAssigned(Pieces(Printed(c), ROOM), KEY_MAP[k]) != Some(Get(c, KEY_MAP[k]))
  {
    hide Get, GoodField, KeyOf, Lossy, Joined, LastAssigned, Pieces, LinesOf, Printed;
    var f, later := KEY_MAP[k], KEY_MAP[k + 1..];
    DistinctKeys(k);
    OthersAssignNothing(c, later, f);
    var own := TextLine(f, Get(c, f).text) + "\n";
    LossyLine(f, Get(c, f).text);
    PrintedAround(c, k);
    hide TextLine;
    var before, after := Joined(LinesOf(c, KEY_MAP[..k])), Joined(LinesOf(c, later));
    PiecesConcat(before, own + after, ROOM);
    PiecesConcat(own, after, ROOM);
    LastAssignedConcat(Pieces(own, ROOM), Pieces(after, ROOM), f);
    LastAssignedConcat(Pieces(before, ROOM), Pieces(own, ROOM) + Pieces(after, ROOM), f);
  }

  /** A print is the lines before setting `k`, the line of that setting, and the lines after it. */
  lemma PrintedAround(c: Values, k: nat)
    requires k < |KEY_MAP|
    ensures var before := Joined(LinesOf(c, KEY_MAP[..k]));
            && (before != [] ==> before[|before| - 1] == '\n')
            && Printed(c) == before + (Line(c, KEY_MAP[k]) + "\n" + Joined(LinesOf(c, KEY_MAP[k + 1..])))
  {
    hide Joined, Line;
    var ls := LinesOf(c, KEY_MAP);
    JoinedAround(ls, k);
    assert ls[..k] == LinesOf(c, KEY_MAP[..k]);
    assert ls[k + 1..] == LinesOf(c, KEY_MAP[k + 1..]);
  }

  lemma DistinctKeys(k: nat)
    requires k < |KEY_MAP|
    ensures KEY_MAP[k] !in KEY_MAP[k + 1..]
  {
    assert forall i :: k < i < |KEY_MAP| ==> KEY_MAP[i] != KEY_MAP[k];
  }

  lemma {:induction false} AllLinesGood(c: Values, k: nat)
    requires NulFreeTexts(c) && RoundTrips(c) && k <= |KEY_MAP|
    ensures forall i :: k <= i < |KEY_MAP| ==> GoodField(c, KEY_MAP[i])
    decreases |KEY_MAP| - k
  {
    if k < |KEY_MAP| {
      AllLinesGood(c, k + 1);
      LineIsGood(c, k);
    }
  }

  /**
    A configuration comes back from its print, whatever it is read into, if and only if its numbers
    are in range and each of its texts fits on its line and keeps both its ends.
   */
  lemma RoundTripsExactly(c: Values)
    requires NulFreeTexts(c)
    ensures RoundTrips(c) <==> Printable(c)
  {
    if Printable(c) {
      forall d {
        ComesBack(c, d);
      }
    }
    if RoundTrips(c) {
      AllLinesGood(c, 0);
      forall f
        ensures IsText(f) ==> PrintableText(f, Get(c, f).text)
        ensures !IsText(f) ==> Low(f) <= Get(c, f).number <= High(f)
      {
        Complete(f);
        ComesFromALine(c, f);
      }
    }
  }
}
