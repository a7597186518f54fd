/**
  Reading a file in pieces with `fgets` (section 7.19.7.2 of ISO/IEC 9899:1999) and how the pieces
  relate to the lines of the file.
 */
module LineReader {
  import opened Sequences
  import opened CStrings
  import opened ConfigModel

  /** The room for characters in the 256-byte line buffer. */
  const ROOM: nat := 255

  /** How many characters one `fgets` takes: up to a newline, the end, or `room` of them. */
  function PieceLength(s: string, room: nat): (n: nat)
    ensures n <= |s| && n <= room
    ensures s != [] && room > 0 ==> n > 0
  {
    if s == [] || room == 0 then 0
    else if s[0] == '\n' then 1
    else 1 + PieceLength(s[1..], room - 1)
  }

  /** The results of successive calls of `fgets` up to the end of the input. */
  function Pieces(s: string, room: nat): seq<string>
    requires room > 0
  {
    if s == [] then []
    else [s[..PieceLength(s, room)]] + Pieces(s[PieceLength(s, room)..], room)
  }

  /** The lines of a file, without their newlines. */
  function Lines(s: string): seq<string> {
    if s == [] then []
    else
      var n := Find(s, '\n');
      if n == |s| then [s] else [s[..n]] + Lines(s[n + 1..])
  }

  lemma {:induction false} PieceLengthIs(s: string, room: nat)
    ensures var n := Find(s, '\n');
            PieceLength(s, room) == if n < room && n < |s| then n + 1 else if n < room then n else room
  {
    if s != [] && room > 0 && s[0] != '\n' {
      PieceLengthIs(s[1..], room - 1);
    }
  }

  /** A line means the same with and without its newline. */
  lemma NewlineIgnored(line: string)
    ensures LineOf(line + "\n") == LineOf(line)
  {
    var n := |Cut(line)|;
    if n < |line| {
      CutUnique(line + "\n", n);
      assert (line + "\n")[..n] == line[..n] == Cut(line);
    } else {
      assert Cut(line) == line;
      CutUnique(line + "\n", n + 1);
      assert (line + "\n")[..n + 1] == line + "\n";
      assert (line + "\n")[..|line + "\n"| - 1] == line;
    }
  }

  lemma LoneNewline()
    ensures LineOf("\n") == ""
  {
    NewlineIgnored("");
    assert "" + "\n" == "\n";
    assert Cut("") == "";
  }

  lemma ParseFirst(c: Values, first: string, first': string, rest: seq<string>, rest': seq<string>)
    requires LineOf(first) == LineOf(first')
    requires Parse(ParseLine(c, first).values, rest) == Parse(ParseLine(c, first).values, rest')
    ensures Parse(c, [first] + rest) == Parse(c, [first'] + rest')
  {
    hide LineOf, Split, Update;
    assert ([first] + rest)[1..] == rest;
    assert ([first'] + rest')[1..] == rest';
  }

  lemma ParseSkips(c: Values, rest: seq<string>)
    ensures Parse(c, ["\n"] + rest) == Parse(c, rest)
  {
    LoneNewline();
    hide LineOf, Split, Update;
    assert (["\n"] + rest)[1..] == rest;
  }

  lemma LastLine(s: string)
    requires s != [] && Find(s, '\n') == |s|
    ensures Lines(s) == [s]
  {
    hide Find;
  }

  lemma LineAndRest(s: string)
    requires Find(s, '\n') < |s|
    ensures Lines(s) == [s[..Find(s, '\n')]] + Lines(s[Find(s, '\n') + 1..])
  {
    hide Find;
  }

  lemma PiecesUnfold(s: string, room: nat)
    requires room > 0
    ensures var n := PieceLength(s, room);
            Pieces(s, room) == if s == [] then [] else [s[..n]] + Pieces(s[n..], room)
  {
    hide PieceLength;
  }

  lemma LastPiece(s: string, room: nat)
    requires 0 < |s| <= room && '\n' !in s
    ensures Pieces(s, room) == [s]
  {
    FindUnique(s, '\n', |s|);
    PieceLengthIs(s, room);
    PiecesUnfold(s, room);
    PiecesUnfold(s[|s|..], room);
    hide PieceLength, Find, Pieces;
    assert s[..|s|] == s && s[|s|..] == [];
  }

  /** The newline of a line that fills the buffer. */
  lemma NewlinePiece(s: string, room: nat)
    requires room > 0 && s != [] && s[0] == '\n'
    ensures Pieces(s, room) == ["\n"] + Pieces(s[1..], room)
  {
    FindUnique(s, '\n', 0);
    PieceLengthIs(s, room);
    PiecesUnfold(s, room);
    hide PieceLength, Find, Pieces;
    assert s[..1] == "\n";
  }

  lemma ShortLine(s: string, room: nat)
    requires Find(s, '\n') < room && Find(s, '\n') < |s|
    ensures var n := Find(s, '\n'); Pieces(s, room) == [s[..n] + "\n"] + Pieces(s[n + 1..], room)
  {
    hide *;
    PieceLengthIs(s, room);
    PiecesUnfold(s, room);
    TakeNext(s, Find(s, '\n'));
  }

  lemma FullLine(s: string, room: nat)
    requires 0 < room == Find(s, '\n') < |s|
    ensures Pieces(s, room) == [s[..room]] + (["\n"] + Pieces(s[room + 1..], room))
  {
    hide *;
    PieceLengthIs(s, room);
    PiecesUnfold(s, room);
    NewlinePiece(s[room..], room);
    assert s[room..][1..] == s[room + 1..];
  }

  /** How a line is taken apart from the rest of the file, by lines and by pieces. */
  lemma FirstLine(s: string, room: nat)
    requires room > 0 && s != []
    ensures var n := Find(s, '\n');
            if n == |s| then
              Lines(s) == [s] && (n <= room ==> Pieces(s, room) == [s])
            else
              && Lines(s) == [s[..n]] + Lines(s[n + 1..])
              && (n < room ==> Pieces(s, room) == [s[..n] + "\n"] + Pieces(s[n + 1..], room))
              && (n == room ==> Pieces(s, room) == [s[..n]] + (["\n"] + Pieces(s[n + 1..], room)))
  {
    hide *;
    var n := Find(s, '\n');
    if n < |s| {
      LineAndRest(s);
      if n < room {
        ShortLine(s, room);
      } else if n == room {
        FullLine(s, room);
      }
    } else {
      LastLine(s);
      if |s| <= room {
        LastPiece(s, room);
      }
    }
  }

  /**
    Reading through a bounded buffer means the same as reading whole lines, as long as every line
    fits, including a line that fills the buffer, whose newline arrives as a piece of its own.
   */
  lemma {:induction false} BufferIsInvisible(c: Values, s: string, room: nat)
    requires room > 0
    requires forall i :: 0 <= i < |Lines(s)| ==> |Lines(s)[i]| <= room
    ensures Parse(c, Pieces(s, room)) == Parse(c, Lines(s))
    decreases |s|
  {
    if s != [] {
      var n := Find(s, '\n');
      FirstLine(s, room);
      hide ParseLine, Parse, LineOf, Lines, Pieces;
      if n < |s| {
        var line, rest := s[..n], s[n + 1..];
        assert |Lines(s)[0]| <= room;
        assert forall i :: 0 <= i < |Lines(rest)| ==> Lines(rest)[i] == Lines(s)[i + 1];
        if n < room {
          NewlineIgnored(line);
          BufferIsInvisible(ParseLine(c, line + "\n").values, rest, room);
          ParseFirst(c, line + "\n", line, Pieces(rest, room), Lines(rest));
        } else {
          BufferIsInvisible(ParseLine(c, line).values, rest, room);
          ParseSkips(ParseLine(c, line).values, Pieces(rest, room));
          ParseFirst(c, line, line, ["\n"] + Pieces(rest, room), Lines(rest));
        }
      } else {
        assert |Lines(s)[0]| <= room;
      }
    }
  }

  /** A piece that is not skipped and holds no '=' fails. */
  lemma PlainPieceFails(c: Values, piece: string)
    requires piece != [] && piece[0] !in "#\r\n" && NulFree(piece) && '=' !in piece
    ensures !ParseLine(c, piece).ok
  {
    CutUnique(piece, |piece|);
    assert piece[..|piece|] == piece;
    FirstStays(piece, "\r\n");
    var line := LineOf(piece);
    assert line <= piece;
    FindUnique(line, '=', |line|);
  }

  /** A comment longer than the buffer fails if what is left of it reads as a line of another kind. */
  lemma LongCommentFails(c: Values, s: string, room: nat)
    requires room > 0 && |s| > room && s[0] == '#'
    requires NulFree(s) && '\n' !in s
    requires s[room] !in "#\r" && '=' !in s[room..]
    ensures Parse(c, Lines(s)).ok && !Parse(c, Pieces(s, room)).ok
  {
    FindUnique(s, '\n', |s|);
    PieceLengthIs(s, room);
    Comment(s);
    assert Lines(s) == [s] && [s][1..] == [];
    var first, last := s[..room], s[room..];
    Comment(first);
    var n := PieceLength(last, room);
    assert last[0] == s[room];
    assert forall i :: 0 <= i < |last[..n]| ==> last[..n][i] == s[room + i];
    assert '=' !in last[..n];
    PlainPieceFails(c, last[..n]);
    hide ParseLine, PieceLength;
    assert Pieces(s, room) == [first] + Pieces(last, room);
    assert Pieces(last, room) == [last[..n]] + Pieces(last[n..], room);
  }

  function LongComment(n: nat): (s: string)
    requires n > 0
    ensures |s| == n && s[0] == '#' && forall i :: 0 < i < n ==> s[i] == 'x'
  {
    seq(n, i => if i == 0 then '#' else 'x')
  }

  /** Lines of length `n` are read as lines, whatever is in them, if and only if they fit. */
  lemma FitsExactly(n: nat, room: nat)
    requires room > 0
    ensures (forall c: Values, s: string :: |s| == n && '\n' !in s ==>
               Parse(c, Pieces(s, room)) == Parse(c, Lines(s)))
            <==> n <= room
  {
    if n <= room {
      forall c: Values, s: string | |s| == n && '\n' !in s
        ensures Parse(c, Pieces(s, room)) == Parse(c, Lines(s))
      {
        FindUnique(s, '\n', |s|);
        assert s != [] ==> Lines(s) == [s];
        BufferIsInvisible(c, s, room);
      }
    } else {
      var s := LongComment(n);
      assert '=' !in s[room..];
      LongCommentFails(DEFAULTS, s, room);
    }
  }

  /** Through the 256-byte line buffer: up to 255 characters. */
  lemma FitsIn255(n: nat)
    ensures (forall c: Values, s: string :: |s| == n && '\n' !in s ==>
               Parse(c, Pieces(s, ROOM)) == Parse(c, Lines(s)))
            <==> n <= 255
  {
    assert ROOM == 255;
    hide *;
    FitsExactly(n, ROOM);
  }

  lemma Comment(s: string)
    requires s != [] && s[0] == '#' && NulFree(s)
    ensures Skipped(LineOf(s))
  {
    CutUnique(s, |s|);
    assert s[..|s|] == s;
    FirstStays(s, "\r\n");
  }

  lemma FirstStays(s: string, chars: string)
    requires s != [] && s[0] !in chars
    ensures RStrip(s, chars) != [] && RStrip(s, chars)[0] == s[0]
  {
    RStripMaximal(s, chars, RStrip(s, chars));
  }
}
