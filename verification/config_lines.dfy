/** What a line of the configuration file means, character by character. */
module ConfigLines {
  import opened Options
  import opened CStrings
  import opened ConfigModel
  import opened ConfigPrint

  predicate IsBlank(c: char) {
    c == ' ' || c == '\t'
  }

  predicate IsLineEnd(c: char) {
    c == '\r' || c == '\n'
  }

  // ---- Splitting ----

  /** `s` is `r` followed by blanks, and `r` does not end in one. */
  predicate BlanksAfter(s: string, r: string) {
    && r <= s
    && (forall i :: |r| <= i < |s| ==> IsBlank(s[i]))
    && (r != [] ==> !IsBlank(r[|r| - 1]))
  }

  /**
    The first '=' is at `i` and the key is what is before it but for blanks; after the '=' come blanks
    up to `n`, then the value, then blanks.
   */
  predicate Assignment(s: string, key: string, value: string, i: nat, n: nat) {
    && i < n <= |s|
    && s[i] == '=' && (forall k :: 0 <= k < i ==> s[k] != '=')
    && BlanksAfter(s[..i], key)
    && (forall k :: i < k < n ==> IsBlank(s[k]))
    && BlanksAfter(s[n..], value) && (value != [] ==> !IsBlank(value[0]))
  }

  lemma StrippedRight(s: string, r: string)
    ensures BlanksAfter(s, r) <==> r == RStrip(s, BLANKS)
  {
    RStripMaximal(s, BLANKS, r);
    hide RStrip;
    if r <= s {
      assert forall i :: |r| <= i < |s| ==> s[i] == s[|r|..][i - |r|];
      assert forall i :: 0 <= i < |s| - |r| ==> s[|r|..][i] == s[|r| + i];
    }
  }

  lemma StrippedLeft(s: string, n: nat)
    requires n <= |s| && (forall k :: 0 <= k < n ==> IsBlank(s[k])) && (n < |s| ==> !IsBlank(s[n]))
    ensures LStrip(s, BLANKS) == s[n..]
  {
    hide LStrip;
    LStripIs(s, BLANKS, n);
  }

  /** Blanks, the value, and blanks again. */
  lemma ValueAmongBlanks(t: string, value: string, n: nat)
    requires n <= |t| && (forall k :: 0 <= k < n ==> IsBlank(t[k]))
    requires BlanksAfter(t[n..], value) && (value != [] ==> !IsBlank(value[0]))
    ensures RStrip(LStrip(t, BLANKS), BLANKS) == value
  {
    if value == [] {
      assert forall k :: n <= k < |t| ==> t[k] == t[n..][k - n];
      StrippedLeft(t, |t|);
    } else {
      assert t[n] == value[0];
      StrippedLeft(t, n);
      StrippedRight(t[n..], value);
    }
  }

  lemma SplitsAsWritten(s: string, key: string, value: string, i: nat, n: nat)
    requires Assignment(s, key, value, i, n)
    ensures Split(s) == Some(KeyValue(key, value))
  {
    var t := s[i + 1..];
    FindUnique(s, '=', i);
    StrippedRight(s[..i], key);
    assert forall k :: 0 <= k < n - i - 1 ==> t[k] == s[i + 1 + k];
    assert t[n - i - 1..] == s[n..];
    hide Find, RStrip, LStrip, BlanksAfter;
    ValueAmongBlanks(t, value, n - i - 1);
  }

  lemma LeadingBlanks(t: string) returns (m: nat)
    ensures m <= |t| && LStrip(t, BLANKS) == t[m..]
    ensures (forall k :: 0 <= k < m ==> IsBlank(t[k])) && (m < |t| ==> !IsBlank(t[m]))
  {
    m := LStripDrops(t);
    LStripMaximal(t, BLANKS, m);
    hide LStrip;
    assert forall k :: 0 <= k < m ==> t[k] == t[..m][k];
  }

  lemma WrittenAsSplit(s: string, key: string, value: string)
    requires Split(s) == Some(KeyValue(key, value))
    ensures exists i, n :: Assignment(s, key, value, i, n)
  {
    var i := Find(s, '=');
    assert key == RStrip(s[..i], BLANKS) && value == RStrip(LStrip(s[i + 1..], BLANKS), BLANKS);
    hide Find, RStrip, LStrip, Split, BlanksAfter;
    var m := LeadingBlanks(s[i + 1..]);
    ValueAt(s, i, m);
    StrippedRight(s[..i], key);
    StrippedRight(s[i + 1 + m..], value);
    BlanksAfterFirst(s[i + 1 + m..], value);
    assert Assignment(s, key, value, i, i + 1 + m);
  }

  lemma ValueAt(s: string, i: nat, m: nat)
    requires i < |s| && i + 1 + m <= |s|
    ensures s[i + 1..][m..] == s[i + 1 + m..]
    ensures forall k :: i < k < i + 1 + m ==> s[k] == s[i + 1..][k - i - 1]
    ensures i + 1 + m < |s| ==> s[i + 1 + m..][0] == s[i + 1..][m]
  {
  }

  lemma BlanksAfterFirst(s: string, r: string)
    requires BlanksAfter(s, r)
    ensures r != [] ==> s != [] && r[0] == s[0]
  {
  }

  /** A line splits into a key and a value exactly when it is written so. */
  lemma SplitExactly(s: string, key: string, value: string)
    ensures Split(s) == Some(KeyValue(key, value))
            <==> exists i, n :: Assignment(s, key, value, i, n)
  {
    hide Split, Assignment;
    if i, n :| Assignment(s, key, value, i, n) {
      SplitsAsWritten(s, key, value, i, n);
    }
    if Split(s) == Some(KeyValue(key, value)) {
      WrittenAsSplit(s, key, value);
    }
  }

  // ---- Line ends, NULs and comments ----

  /** `s` is `r` followed by line ends, and `r` does not end in one. */
  predicate EndsAfter(s: string, r: string) {
    && r <= s
    && (forall i :: |r| <= i < |s| ==> IsLineEnd(s[i]))
    && (r != [] ==> !IsLineEnd(r[|r| - 1]))
  }

  lemma EndStripped(s: string, r: string)
    ensures EndsAfter(s, r) <==> r == RStrip(s, "\r\n")
  {
    RStripMaximal(s, "\r\n", r);
    hide RStrip;
    if r <= s {
      assert forall i :: |r| <= i < |s| ==> s[i] == s[|r|..][i - |r|];
      assert forall i :: 0 <= i < |s| - |r| ==> s[|r|..][i] == s[|r| + i];
    }
  }

  /** A line is what is before its end. */
  lemma LineBeforeEnd(piece: string, line: string)
    requires forall i :: 0 <= i < |piece| ==> piece[i] != '\0'
    ensures EndsAfter(piece, line) <==> line == LineOf(piece)
  {
    hide Cut, RStrip, EndsAfter;
    CutWhole(piece);
    EndStripped(piece, line);
  }

  /** What follows a NUL is not read. */
  lemma NulEndsLine(before: string, after: string)
    requires forall i :: 0 <= i < |before| ==> before[i] != '\0'
    ensures LineOf(before + "\0" + after) == LineOf(before)
  {
    var s := before + "\0" + after;
    CutUnique(s, |before|);
    CutUnique(before, |before|);
    assert s[..|before|] == before == before[..|before|];
  }

  /** A piece can be read exactly when it is only a line end, begins with '#', or holds an '='. */
  lemma ReadableExactly(piece: string)
    requires forall i :: 0 <= i < |piece| ==> piece[i] != '\0'
    ensures Readable(piece)
            <==> (forall i :: 0 <= i < |piece| ==> IsLineEnd(piece[i])) || piece[0] == '#' || '=' in piece
  {
    var line := LineOf(piece);
    LineBeforeEnd(piece, line);
    hide LineOf;
    if line == [] {
    } else {
      assert !IsLineEnd(piece[|line| - 1]);
      HoldsEquals(piece, line);
    }
  }

  lemma HoldsEquals(piece: string, line: string)
    requires EndsAfter(piece, line)
    ensures '=' in piece <==> '=' in line
  {
    assert forall i :: 0 <= i < |line| ==> line[i] == piece[i];
    if '=' in piece {
      var i :| 0 <= i < |piece| && piece[i] == '=';
      assert line[i] == '=';
    }
  }
}
