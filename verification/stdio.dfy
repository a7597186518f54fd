/** Open files and `fgets`, section 7.19.7.2 of ISO/IEC 9899:1999, on a buffer in memory. */
module Stdio {
  import opened CStrings
  import opened LineReader

  /** An open file and the position up to which it has been read. */
  class InputFile {
    const content: string
    var pos: nat

    ghost predicate Valid()
      reads this
    {
      pos <= |content|
    }

    ghost function Rest(): string
      requires Valid()
      reads this
    {
      content[pos..]
    }

    constructor (content: string)
      ensures Valid() && this.content == content && Rest() == content
    {
      this.content := content;
      pos := 0;
    }

    /** `fgets`: takes the next piece into the buffer and ends it with a NUL. */
    method Fgets(buf: array<char>, size: nat) returns (got: bool)
      requires Valid() && 2 <= size <= buf.Length
      modifies this`pos, buf
      ensures Valid() && got == (old(Rest()) != [])
      ensures got ==>
                var n := PieceLength(old(Rest()), size - 1);
                && Rest() == old(Rest())[n..]
                && Terminated(buf[..], 0)
                && CStr(buf[..], 0) == Cut(old(Rest())[..n])
      ensures !got ==> Rest() == [] && buf[..] == old(buf[..])
    {
      if pos == |content| {
        return false;
      }
      hide Cut, Terminated, CStr, PieceLength;
      ghost var rest := Rest();
      var start, n, done := pos, 0, false;
      while n < size - 1 && pos < |content| && !done
        invariant pos == start + n <= |content| && n <= size - 1
        invariant forall i :: 0 <= i < n ==> buf[i] == rest[i]
        invariant forall i :: 0 <= i < n && !(done && i == n - 1) ==> buf[i] != '\n'
        invariant done ==> n > 0 && buf[n - 1] == '\n'
      {
        buf[n] := content[pos];
        done := content[pos] == '\n';
        n, pos := n + 1, pos + 1;
      }
      PieceEnds(rest, size - 1, n);
      buf[n] := NUL;
      got := true;
      FgetsCut(buf[..], rest[..n]);
    }
  }

  /** What ends a piece: a newline, the end of the room, or the end of the input. */
  lemma {:induction false} PieceEnds(s: string, room: nat, n: nat)
    requires n <= |s| && n <= room && forall i :: 0 <= i < n - 1 ==> s[i] != '\n'
    requires n == room || n == |s| || (n > 0 && s[n - 1] == '\n')
    ensures PieceLength(s, room) == n
  {
    if n > 1 {
      PieceEnds(s[1..], room - 1, n - 1);
    }
  }

  /** A buffer that holds characters and then a NUL denotes those characters up to their first NUL. */
  lemma FgetsCut(b: seq<char>, s: string)
    requires |s| < |b| && (forall i :: 0 <= i < |s| ==> b[i] == s[i]) && b[|s|] == NUL
    ensures Terminated(b, 0) && CStr(b, 0) == Cut(s)
  {
    CStrIs(b, 0, Cut(s));
  }
}
