/**
  C strings in buffers. The pure functions say what a string is and what stripping and splitting
  mean; the methods below work in place on a buffer, writing NULs and moving indices, and are
  proved to compute those functions.
 */
module CStrings {
  import opened Options

  const NUL: char := '\0'
  const BLANKS: string := " \t"

  // ---- Strings on values ----

  /** The characters before the first NUL. */
  function Cut(s: string): (r: string)
    ensures r <= s
    ensures forall i :: 0 <= i < |r| ==> r[i] != NUL
    ensures |r| < |s| ==> s[|r|] == NUL
  {
    if s == [] || s[0] == NUL then [] else [s[0]] + Cut(s[1..])
  }

  /** `s` without its longest prefix of characters in `set`. */
  function LStrip(s: string, chars: string): string {
    if s != [] && s[0] in chars then LStrip(s[1..], chars) else s
  }

  /** `s` without its longest suffix of characters in `set`. */
  function RStrip(s: string, chars: string): (r: string)
    ensures r <= s
  {
    if s != [] && s[|s| - 1] in chars then RStrip(s[..|s| - 1], chars) else s
  }

  /** The index of the first `c`, or the length when there is none. */
  function Find(s: string, c: char): (i: nat)
    ensures i <= |s|
    ensures forall k :: 0 <= k < i ==> s[k] != c
    ensures i < |s| ==> s[i] == c
  {
    if s == [] || s[0] == c then 0 else 1 + Find(s[1..], c)
  }

  datatype KeyValue = KeyValue(key: string, value: string)

  /** The line split at its first '=', blanks dropped around the '=' and at the end. */
  function Split(s: string): Option<KeyValue> {
    var i := Find(s, '=');
    if i == |s| then None
    else Some(KeyValue(RStrip(s[..i], BLANKS), RStrip(LStrip(s[i + 1..], BLANKS), BLANKS)))
  }

  /** `Cut` finds the first NUL and nothing else. */
  lemma CutUnique(s: string, n: nat)
    requires n <= |s| && (forall i :: 0 <= i < n ==> s[i] != NUL) && (n < |s| ==> s[n] == NUL)
    ensures Cut(s) == s[..n]
  {
    assert Cut(s) == s[..|Cut(s)|];
  }

  lemma FindUnique(s: string, c: char, i: nat)
    requires i <= |s| && (forall k :: 0 <= k < i ==> s[k] != c) && (i < |s| ==> s[i] == c)
    ensures Find(s, c) == i
  {
  }

  predicate AllIn(s: string, chars: string) {
    forall i :: 0 <= i < |s| ==> s[i] in chars
  }

  lemma AllInSuffix(s: string, chars: string, n: nat)
    requires n < |s|
    ensures var t := s[..|s| - 1]; AllIn(s[n..], chars) <==> s[|s| - 1] in chars && AllIn(t[n..], chars)
  {
    var t := s[..|s| - 1];
    assert s[n..] == t[n..] + [s[|s| - 1]];
    assert forall i :: 0 <= i < |t| - n ==> t[n..][i] == s[n..][i];
    assert s[n..][|s| - 1 - n] == s[|s| - 1];
  }

  /** `RStrip` removes a suffix of strippable characters, and the longest one there is. */
  lemma {:induction false} RStripMaximal(s: string, chars: string, r: string)
    ensures r == RStrip(s, chars) <==>
            r <= s && AllIn(s[|r|..], chars) && (r != [] ==> r[|r| - 1] !in chars)
  {
    if r <= s && r != s {
      AllInSuffix(s, chars, |r|);
      hide AllIn;
      if s[|s| - 1] in chars {
        assert r <= s[..|s| - 1];
        RStripMaximal(s[..|s| - 1], chars, r);
      }
    }
  }

  lemma AllInPrefix(s: string, chars: string, n: nat)
    requires 0 < n <= |s|
    ensures AllIn(s[..n], chars) <==> s[0] in chars && AllIn(s[1..][..n - 1], chars)
  {
    assert s[..n] == [s[0]] + s[1..][..n - 1];
    assert AllIn(s[..n], chars) ==> s[..n][0] in chars;
    assert forall i :: 0 < i < n ==> s[..n][i] == s[1..][..n - 1][i - 1];
  }

  /** `LStrip` removes a prefix of strippable characters, and the longest one there is. */
  lemma {:induction false} LStripMaximal(s: string, chars: string, n: nat)
    requires n <= |s|
    ensures LStrip(s, chars) == s[n..] <==> AllIn(s[..n], chars) && (n < |s| ==> s[n] !in chars)
  {
    if n > 0 {
      AllInPrefix(s, chars, n);
      hide AllIn;
      if s[0] in chars {
        LStripMaximal(s[1..], chars, n - 1);
        assert s[1..][n - 1..] == s[n..];
      }
    } else if s != [] && s[0] in chars {
      LStripLength(s[1..], chars);
    }
  }

  lemma LStripLength(s: string, chars: string)
    ensures |LStrip(s, chars)| <= |s|
  {
  }

  // ---- Strings in buffers ----

  /** The string that a pointer into a buffer denotes. */
  function CStr(b: seq<char>, p: nat): string
    requires p <= |b|
  {
    Cut(b[p..])
  }

  predicate Terminated(b: seq<char>, p: nat) {
    p < |b| && p + |CStr(b, p)| < |b|
  }

  predicate NulFree(s: string) {
    forall i :: 0 <= i < |s| ==> s[i] != NUL
  }

  lemma CutWhole(s: string)
    requires NulFree(s)
    ensures Cut(s) == s
  {
    CutUnique(s, |s|);
    assert s[..|s|] == s;
  }

  /** A buffer holds a string if its characters are there, followed by a NUL. */
  lemma CStrIs(b: seq<char>, p: nat, s: string)
    requires p + |s| < |b| && NulFree(s) && b[p + |s|] == NUL
    requires forall i :: 0 <= i < |s| ==> b[p + i] == s[i]
    ensures Terminated(b, p) && CStr(b, p) == s
  {
    var t := b[p..];
    assert forall i :: 0 <= i < |s| ==> t[i] == s[i];
    CutUnique(t, |s|);
    assert t[..|s|] == s;
  }

  /** What `CStr` says about the buffer. */
  lemma CStrAt(b: seq<char>, p: nat)
    requires Terminated(b, p)
    ensures var s := CStr(b, p);
            NulFree(s) && b[p + |s|] == NUL && forall i :: 0 <= i < |s| ==> b[p + i] == s[i]
  {
  }

  /** The length of the string at a pointer (`strlen`). */
  method Strlen(str: array<char>, p: nat) returns (n: nat)
    requires Terminated(str[..], p)
    ensures n == |CStr(str[..], p)|
  {
    ghost var s := CStr(str[..], p);
    CStrAt(str[..], p);
    n := 0;
    while str[p + n] != NUL
      invariant n <= |s|
      decreases |s| - n
    {
      n := n + 1;
    }
  }

  /** What is left when the loop over the end of a string stops. */
  lemma RStripIs(s: string, chars: string, n: nat)
    requires n <= |s| && (forall i :: n <= i < |s| ==> s[i] in chars) && (n > 0 ==> s[n - 1] !in chars)
    ensures RStrip(s, chars) == s[..n]
  {
    hide RStrip;
    RStripMaximal(s, chars, s[..n]);
  }

  lemma LStripIs(s: string, chars: string, n: nat)
    requires n <= |s| && (forall i :: 0 <= i < n ==> s[i] in chars) && (n < |s| ==> s[n] !in chars)
    ensures LStrip(s, chars) == s[n..]
  {
    hide LStrip;
    LStripMaximal(s, chars, n);
  }

  /** The buffer when the characters from `n` on, of the string at `p`, have been stripped. */
  lemma EndCleared(b: seq<char>, b': seq<char>, p: nat, chars: string, n: nat)
    requires Terminated(b, p) && n <= |CStr(b, p)| && |b'| == |b|
    requires forall k :: p + n <= k < p + |CStr(b, p)| ==> b[k] in chars && b'[k] == NUL
    requires forall k :: 0 <= k < |b| && !(p + n <= k < p + |CStr(b, p)|) ==> b'[k] == b[k]
    requires n > 0 ==> b'[p + n - 1] == NUL || b'[p + n - 1] !in chars
    ensures Terminated(b', p) && CStr(b', p) == RStrip(CStr(b, p), chars) == CStr(b, p)[..n]
  {
    var s := CStr(b, p);
    CStrAt(b, p);
    hide Cut, CStr, RStrip;
    assert forall i :: 0 <= i < |s| ==> b[p + i] == s[i] && s[i] != NUL;
    RStripIs(s, chars, n);
    CStrIs(b', p, s[..n]);
  }

  /** Overwrites characters from the end of a string of `n` characters at `p`; `len` are left. */
  method ClearEnd(str: array<char>, p: nat, n: nat, chars: string) returns (len: nat)
    requires p + n <= str.Length
    modifies str
    ensures len <= n
    ensures forall k :: p + len <= k < p + n ==> old(str[k]) in chars && str[k] == NUL
    ensures forall k :: 0 <= k < str.Length && !(p + len <= k < p + n) ==> str[k] == old(str[k])
    ensures len > 0 ==> str[p + len - 1] == NUL || str[p + len - 1] !in chars
  {
    len := n;
    while len > 0 && str[p + len - 1] != NUL
      invariant len <= n
      invariant forall k :: p + len <= k < p + n ==> old(str[k]) in chars && str[k] == NUL
      invariant forall k :: 0 <= k < str.Length && !(p + len <= k < p + n) ==> str[k] == old(str[k])
    {
      if str[p + len - 1] in chars {
        str[p + len - 1] := NUL;
      } else {
        break;
      }
      len := len - 1;
    }
  }

  /** Strips characters off the end of the string at `p` by overwriting them with NULs. */
  method RStripInPlace(str: array<char>, p: nat, chars: string)
    requires Terminated(str[..], p)
    modifies str
    ensures Terminated(str[..], p)
    ensures CStr(str[..], p) == RStrip(old(CStr(str[..], p)), chars)
    ensures forall k :: 0 <= k < str.Length ==>
              str[k] == if p + |CStr(str[..], p)| <= k < p + old(|CStr(str[..], p)|) then NUL else old(str[k])
  {
    ghost var b := str[..];
    var n := Strlen(str, p);
    var len := ClearEnd(str, p, n, chars);
    EndCleared(b, str[..], p, chars, len);
  }

  /** The string from its character `n` on, if only what is before it has been overwritten. */
  lemma TailKept(b: seq<char>, b': seq<char>, p: nat, n: nat)
    requires Terminated(b, p) && n <= |CStr(b, p)| && |b'| == |b|
    requires forall k :: p + n <= k < |b| ==> b'[k] == b[k]
    ensures Terminated(b', p + n) && CStr(b', p + n) == CStr(b, p)[n..]
  {
    CStrAt(b, p);
    hide Cut;
    CStrIs(b', p + n, CStr(b, p)[n..]);
  }

  /** The buffer when the first `n` characters of the string at `p` have been stripped. */
  lemma StartCleared(b: seq<char>, b': seq<char>, p: nat, chars: string, n: nat)
    requires Terminated(b, p) && n <= |CStr(b, p)| && |b'| == |b|
    requires forall k :: p <= k < p + n ==> b[k] in chars
    requires forall k :: p + n <= k < |b| ==> b'[k] == b[k]
    requires n < |CStr(b, p)| ==> b[p + n] == NUL || b[p + n] !in chars
    ensures Terminated(b', p + n) && CStr(b', p + n) == LStrip(CStr(b, p), chars) == CStr(b, p)[n..]
  {
    var s := CStr(b, p);
    CStrAt(b, p);
    TailKept(b, b', p, n);
    hide Cut, CStr, LStrip;
    assert forall i :: 0 <= i < |s| ==> b[p + i] == s[i] && s[i] != NUL;
    LStripIs(s, chars, n);
  }

  /** Overwrites the first characters of a string of `n` characters at `p`, `len` of them. */
  method ClearStart(str: array<char>, p: nat, n: nat, chars: string) returns (len: nat)
    requires p + n <= str.Length
    modifies str
    ensures len <= n
    ensures forall k :: p <= k < p + len ==> old(str[k]) in chars && str[k] == NUL
    ensures forall k :: 0 <= k < str.Length && !(p <= k < p + len) ==> str[k] == old(str[k])
    ensures len < n ==> str[p + len] == NUL || str[p + len] !in chars
  {
    len := 0;
    while len < n && str[p + len] != NUL
      invariant len <= n
      invariant forall k :: p <= k < p + len ==> old(str[k]) in chars && str[k] == NUL
      invariant forall k :: 0 <= k < str.Length && !(p <= k < p + len) ==> str[k] == old(str[k])
    {
      if str[p + len] in chars {
        str[p + len] := NUL;
      } else {
        break;
      }
      len := len + 1;
    }
  }

  /** Moves past the characters to strip at the start of the string at `p`, overwriting them. */
  method LStripInPlace(str: array<char>, p: nat, chars: string) returns (q: nat)
    requires Terminated(str[..], p)
    modifies str
    ensures Terminated(str[..], q)
    ensures CStr(str[..], q) == LStrip(old(CStr(str[..], p)), chars)
    ensures p <= q && q + |CStr(str[..], q)| == p + old(|CStr(str[..], p)|)
    ensures forall k :: 0 <= k < str.Length ==> str[k] == if p <= k < q then NUL else old(str[k])
  {
    ghost var b := str[..];
    var n := Strlen(str, p);
    var len := ClearStart(str, p, n, chars);
    q := p + len;
    StartCleared(b, str[..], p, chars, len);
  }

  /** The index of the first '=' of a string, or its length. */
  method IndexOf(str: array<char>, p: nat) returns (i: nat)
    requires Terminated(str[..], p)
    ensures i == Find(CStr(str[..], p), '=')
    ensures p + i < str.Length && str[p + i] == if i < |CStr(str[..], p)| then '=' else NUL
  {
    ghost var s := CStr(str[..], p);
    CStrAt(str[..], p);
    hide Cut, CStr, Find;
    i := 0;
    while str[p + i] != NUL && str[p + i] != '='
      invariant i <= |s|
      invariant forall k :: 0 <= k < i ==> s[k] != '='
      decreases |s| - i
    {
      i := i + 1;
    }
    FindUnique(s, '=', i);
  }

  /** The string before a character that has been overwritten by a NUL. */
  lemma CutBefore(b: seq<char>, b': seq<char>, p: nat, i: nat)
    requires Terminated(b, p) && i <= |CStr(b, p)| && |b'| == |b|
    requires b'[p + i] == NUL && forall k :: p <= k < p + i ==> b'[k] == b[k]
    ensures Terminated(b', p) && CStr(b', p) == CStr(b, p)[..i]
  {
    CStrAt(b, p);
    hide Cut;
    CStrIs(b', p, CStr(b, p)[..i]);
  }

  /** The string at `p` ends at its first '='; `rest` is where the rest begins, if there was one. */
  predicate Separated(b: seq<char>, b': seq<char>, p: nat, rest: Option<nat>)
    requires Terminated(b, p)
  {
    var s := CStr(b, p);
    var i := Find(s, '=');
    && Terminated(b', p) && CStr(b', p) == s[..i]
    && (if i == |s| then rest == None && b' == b
        else
          && rest == Some(p + i + 1) && b' == b[p + i := NUL]
          && Terminated(b', p + i + 1) && CStr(b', p + i + 1) == s[i + 1..])
  }

  lemma SeparatedAt(b: seq<char>, p: nat)
    requires Terminated(b, p)
    ensures var s := CStr(b, p);
            var i := Find(s, '=');
            if i == |s| then Separated(b, b, p, None)
            else Separated(b, b[p + i := NUL], p, Some(p + i + 1))
  {
    var s := CStr(b, p);
    var i := Find(s, '=');
    CStrAt(b, p);
    hide CStr, Find, Cut, Terminated;
    if i == |s| {
      assert s[..i] == s;
    } else {
      CutBefore(b, b[p + i := NUL], p, i);
      TailKept(b, b[p + i := NUL], p, i + 1);
    }
  }

  /** `strsep` on "=": ends the string at its first '=' and returns where the rest begins. */
  method Strsep(str: array<char>, p: nat) returns (rest: Option<nat>)
    requires Terminated(str[..], p)
    modifies str
    ensures Separated(old(str[..]), str[..], p, rest)
  {
    var i := IndexOf(str, p);
    SeparatedAt(str[..], p);
    hide Separated, CStr, Find, Cut, Terminated;
    if str[p + i] == NUL {
      return None;
    }
    str[p + i] := NUL;
    return Some(p + i + 1);
  }

  /** A string is where it was if the bytes up to its end are as they were. */
  lemma CStrKept(b: seq<char>, b': seq<char>, p: nat, end: nat)
    requires |b| == |b'| && Terminated(b, p) && p + |CStr(b, p)| < end
    requires forall k :: p <= k < end && k < |b| ==> b'[k] == b[k]
    ensures Terminated(b', p) && CStr(b', p) == CStr(b, p)
  {
    CStrAt(b, p);
    CStrIs(b', p, CStr(b, p));
  }

  /** Strips the blanks on both sides of the string at `p`, leaving the bytes before it alone. */
  method StripInPlace(str: array<char>, p: nat) returns (q: nat)
    requires Terminated(str[..], p)
    modifies str
    ensures Terminated(str[..], q)
    ensures CStr(str[..], q) == RStrip(LStrip(old(CStr(str[..], p)), BLANKS), BLANKS)
    ensures forall k :: 0 <= k < p ==> str[k] == old(str[k])
  {
    hide Cut, RStrip, LStrip;
    q := LStripInPlace(str, p, BLANKS);
    RStripInPlace(str, q, BLANKS);
  }

  /** Splits the line at `p` into a key and a value, both left in the buffer; false on failure. */
  method SplitInPlace(str: array<char>, p: nat) returns (ok: bool, key: nat, value: nat)
    requires Terminated(str[..], p)
    modifies str
    ensures ok <==> Split(old(CStr(str[..], p))).Some?
    ensures ok ==> Terminated(str[..], key) && Terminated(str[..], value)
    ensures ok ==> Split(old(CStr(str[..], p))) == Some(KeyValue(CStr(str[..], key), CStr(str[..], value)))
    ensures !ok ==> Terminated(str[..], p) && CStr(str[..], p) == RStrip(old(CStr(str[..], p)), BLANKS)
  {
    hide Cut, Find, RStrip, LStrip, CStr;
    ghost var s := CStr(str[..], p);
    key, value := p, p;
    var rest := Strsep(str, p);
    ghost var cut := str[..];
    RStripInPlace(str, key, BLANKS);
    ok := rest.Some?;
    if ok {
      CStrTail(cut, str[..], rest.value);
      ghost var stripped := str[..];
      value := StripInPlace(str, rest.value);
      CStrKept(stripped, str[..], key, rest.value);
    } else {
      assert s[..|s|] == s;
    }
  }

  lemma CStrTail(b: seq<char>, b': seq<char>, p: nat)
    requires |b| == |b'| && Terminated(b, p)
    requires forall k :: p <= k < |b| ==> b'[k] == b[k]
    ensures Terminated(b', p) && CStr(b', p) == CStr(b, p)
  {
    assert b[p..] == b'[p..];
  }
}
