/**
  Printing a configuration and reading the print back, into whatever configuration there is.
 */
module ConfigPrint {
  import opened Options
  import opened CStrings
  import opened Numerals
  import opened ConfigModel
  import opened LineReader

  // ---- Splitting is canonical ----

  /** Neither end of the text is a blank. */
  predicate Trimmed(s: string) {
    s != [] ==> s[0] !in BLANKS && s[|s| - 1] !in BLANKS
  }

  lemma TrimmedStays(s: string)
    requires Trimmed(s)
    ensures LStrip(s, BLANKS) == s && RStrip(s, BLANKS) == s
    ensures LStrip(" " + s, BLANKS) == s
  {
    assert (" " + s)[1..] == s;
  }

  lemma LStripDrops(s: string) returns (n: nat)
    ensures n <= |s| && LStrip(s, BLANKS) == s[n..] && (n < |s| ==> s[n] !in BLANKS)
  {
    if s != [] && s[0] in BLANKS {
      n := LStripDrops(s[1..]);
      n := n + 1;
      assert s[1..][n - 1..] == s[n..];
    } else {
      n := 0;
    }
  }

  lemma StrippedIsTrimmed(s: string)
    ensures Trimmed(RStrip(LStrip(s, BLANKS), BLANKS))
  {
    var n := LStripDrops(s);
    hide LStrip, RStrip;
    var t := LStrip(s, BLANKS);
    var v := RStrip(t, BLANKS);
    RStripMaximal(t, BLANKS, v);
    assert v != [] ==> v[0] == t[0] == s[n];
  }

  /** A key without '=' and without blanks at its end, and a trimmed value, survive splitting. */
  lemma SplitJoined(key: string, value: string)
    requires '=' !in key && (key != [] ==> key[|key| - 1] !in BLANKS) && Trimmed(value)
    ensures Split(key + " = " + value) == Some(KeyValue(key, value))
  {
    hide Find, RStrip, LStrip;
    var s := key + " = " + value;
    var n := |key| + 1;
    assert s[n] == '=';
    FindUnique(s, '=', n);
    assert s[..n][..|key|] == key && s[..n] == key + " ";
    RStripMaximal(key + " ", BLANKS, key);
    assert s[n + 1..] == " " + value;
    TrimmedStays(value);
  }

  lemma KeyOfSplit(s: string)
    ensures var key := RStrip(s[..Find(s, '=')], BLANKS);
            '=' !in key && (key != [] ==> key[|key| - 1] !in BLANKS)
  {
    var left := s[..Find(s, '=')];
    RStripMaximal(left, BLANKS, RStrip(left, BLANKS));
    hide RStrip, AllIn, Find;
    assert forall i :: 0 <= i < |RStrip(left, BLANKS)| ==> RStrip(left, BLANKS)[i] == s[i] != '=';
  }

  /** Splitting again what splitting gave, joined with " = ", changes nothing. */
  lemma SplitIsCanonical(s: string)
    requires '=' in s
    ensures Split(s).Some?
    ensures var kv := Split(s).value; Split(kv.key + " = " + kv.value) == Some(kv)
  {
    hide Find, RStrip, LStrip, Trimmed;
    KeyOfSplit(s);
    var kv := Split(s).value;
    StrippedIsTrimmed(s[Find(s, '=') + 1..]);
    hide Split;
    SplitJoined(kv.key, kv.value);
  }

  // ---- The print ----

  function Show(x: Value): string {
    match x
    case Text(s) => s
    case Number(n) => Decimal(n)
  }

  /** A line that sets a setting. */
  function TextLine(f: Field, s: string): string {
    KeyOf(f) + " = " + s
  }

  function Line(c: Values, f: Field): string {
    TextLine(f, Show(Get(c, f)))
  }

  function LinesOf(c: Values, fs: seq<Field>): seq<string> {
    seq(|fs|, i requires 0 <= i < |fs| => Line(c, fs[i]))
  }

  lemma LinesOfNext(c: Values, fs: seq<Field>, i: nat)
    requires i < |fs|
    ensures LinesOf(c, fs[..i + 1]) == LinesOf(c, fs[..i]) + [Line(c, fs[i])]
  {
    hide Line;
    forall k | 0 <= k <= i
      ensures LinesOf(c, fs[..i + 1])[k] == Line(c, fs[k])
      ensures k < i ==> LinesOf(c, fs[..i])[k] == Line(c, fs[k])
    {
    }
  }

  /** Each line ended by a newline. */
  function Joined(ls: seq<string>): string {
    if ls == [] then "" else ls[0] + "\n" + Joined(ls[1..])
  }

  lemma {:induction false} JoinedAppend(ls: seq<string>, line: string)
    ensures Joined(ls + [line]) == Joined(ls) + line + "\n"
  {
    if ls == [] {
      assert [line][1..] == [];
    } else {
      assert (ls + [line])[1..] == ls[1..] + [line];
      JoinedAppend(ls[1..], line);
    }
  }

  function Printed(c: Values): string {
    Joined(LinesOf(c, KEY_MAP))
  }

  lemma LinesCons(line: string, rest: string)
    requires '\n' !in line
    ensures Lines(line + "\n" + rest) == [line] + Lines(rest)
  {
    var s := line + "\n" + rest;
    FindUnique(s, '\n', |line|);
    hide Find;
    assert s[..|line|] == line && s[|line| + 1..] == rest;
  }

  /** The lines of a file put together from lines are those lines. */
  lemma {:induction false} LinesJoined(ls: seq<string>)
    requires forall i :: 0 <= i < |ls| ==> '\n' !in ls[i]
    ensures Lines(Joined(ls)) == ls
  {
    if ls != [] {
      assert Joined(ls) == ls[0] + "\n" + Joined(ls[1..]);
      hide Lines, Find, Joined;
      LinesJoined(ls[1..]);
      LinesCons(ls[0], Joined(ls[1..]));
    }
  }

  /** Texts are C strings. */
  predicate NulFreeTexts(c: Values) {
    forall f :: IsText(f) ==> NulFree(Get(c, f).text)
  }

  /** A text that comes back: one line, no blanks at its ends, no CR at its end, and it fits. */
  predicate PrintableText(f: Field, s: string) {
    && '\n' !in s
    && Trimmed(s)
    && (s != [] ==> s[|s| - 1] != '\r')
    && |KeyOf(f)| + 3 + |s| <= ROOM
  }

  predicate Printable(c: Values) {
    && InRange(c)
    && forall f :: IsText(f) ==> PrintableText(f, Get(c, f).text)
  }

  predicate PlainKey(key: string) {
    forall i :: 0 <= i < |key| ==> key[i] == '_' || 'a' <= key[i] <= 'z'
  }

  lemma KeysPlain(f: Field)
    ensures PlainKey(KeyOf(f)) && Matches(f, KeyOf(f)) && |KeyOf(f)| < 20
  {
    hide KeyOf;
    KeySpelling(f);
  }

  lemma KeySpelling(f: Field)
    ensures PlainKey(KeyOf(f)) && |KeyOf(f)| < 20
  {
    hide KeyOf;
    if IsText(f) {
      TextKeySpelling(f);
    } else {
      NumberKeySpelling(f);
    }
  }

  lemma TextKeySpelling(f: Field)
    requires IsText(f)
    ensures PlainKey(KeyOf(f)) && |KeyOf(f)| < 20
  {
  }

  lemma NumberKeySpelling(f: Field)
    requires !IsText(f)
    ensures PlainKey(KeyOf(f)) && |KeyOf(f)| < 20
  {
  }

  /** The printed value of a setting that comes back. */
  predicate GoodShow(f: Field, s: string) {
    NulFree(s) && PrintableText(f, s)
  }

  lemma DigitsPlain(s: string)
    requires AllDigits(s)
    ensures NulFree(s) && '\n' !in s && Trimmed(s) && (s != [] ==> s[|s| - 1] != '\r')
  {
  }

  lemma NumberShowsWell(f: Field, n: int)
    requires !IsText(f) && Low(f) <= n <= High(f)
    ensures GoodShow(f, Decimal(n))
    ensures Interpret(f, Decimal(n)) == Some(Number(n))
  {
    KeysPlain(f);
    hide KeyOf, Digits, Strtol, AllDigits, Trimmed, NulFree;
    DigitsLength(n);
    ReadDecimal(n);
    DigitsPlain(Digits(n));
  }

  lemma ShowsWell(c: Values, f: Field)
    requires Printable(c) && NulFreeTexts(c)
    ensures GoodShow(f, Show(Get(c, f)))
    ensures Interpret(f, Show(Get(c, f))) == Some(Get(c, f))
  {
    hide KeyOf, Low, High, Get, Decimal, PrintableText;
    if !IsText(f) {
      NumberShowsWell(f, Get(c, f).number);
    }
  }

  lemma LineOfGood(f: Field, s: string)
    requires GoodShow(f, s)
    ensures LineOf(TextLine(f, s)) == TextLine(f, s)
  {
    KeysPlain(f);
    hide KeyOf;
    var line := TextLine(f, s);
    assert line[|line| - 1] !in "\r\n";
    CutUnique(line, |line|);
    assert line[..|line|] == line;
  }

  /** A printed line assigns the setting it prints, and no other. */
  lemma LineAssigns(f: Field, s: string, g: Field)
    requires GoodShow(f, s)
    ensures Assigns(TextLine(f, s), g) == if g == f then Interpret(f, s) else None
    ensures Readable(TextLine(f, s))
  {
    var line := TextLine(f, s);
    hide KeyOf, LineOf, Split, Interpret, NulFree;
    LineOfGood(f, s);
    KeysPlain(f);
    SplitJoined(KeyOf(f), s);
    assert line[0] == KeyOf(f)[0];
    assert line[|KeyOf(f)| + 1] == '=';
    if Matches(g, KeyOf(f)) {
      OneMatch(f, g, KeyOf(f));
    }
  }

  lemma {:induction false} LinesAssign(c: Values, fs: seq<Field>, f: Field)
    requires Printable(c) && NulFreeTexts(c)
    ensures LastAssigned(LinesOf(c, fs), f) == if f in fs then Some(Get(c, f)) else None
  {
    hide Printable, NulFreeTexts, Assigns, Get, Show, KeyOf, GoodShow;
    if fs != [] {
      var n := |fs| - 1;
      var g := fs[n];
      assert LinesOf(c, fs)[..n] == LinesOf(c, fs[..n]);
      assert LinesOf(c, fs)[n] == Line(c, g);
      LinesAssign(c, fs[..n], f);
      ShowsWell(c, g);
      LineAssigns(g, Show(Get(c, g)), f);
    }
  }

  lemma PlainLine(key: string, s: string)
    requires PlainKey(key) && '\n' !in s
    ensures '\n' !in key + " = " + s
  {
  }

  lemma LineFits(c: Values, f: Field)
    requires Printable(c) && NulFreeTexts(c)
    ensures '\n' !in Line(c, f) && |Line(c, f)| <= ROOM && Readable(Line(c, f))
  {
    hide KeyOf, Show, Get, Readable, Printable, NulFreeTexts, PlainKey, Matches, Assigns;
    ShowsWell(c, f);
    KeysPlain(f);
    LineAssigns(f, Show(Get(c, f)), f);
    PlainLine(KeyOf(f), Show(Get(c, f)));
  }

  /** A printable configuration comes back from its print, whatever configuration it is read into. */
  lemma ComesBack(c: Values, d: Values)
    requires Printable(c) && NulFreeTexts(c)
    ensures Parse(d, Pieces(Printed(c), ROOM)) == Parsed(true, c)
  {
    hide Printable, NulFreeTexts, Line, Lines, Joined, Pieces, Readable, Get, LastAssigned, Parse;
    var ls := LinesOf(c, KEY_MAP);
    forall i | 0 <= i < |ls|
      ensures '\n' !in ls[i] && |ls[i]| <= ROOM && Readable(ls[i])
    {
      LineFits(c, KEY_MAP[i]);
    }
    LinesJoined(ls);
    BufferIsInvisible(d, Printed(c), ROOM);
    assert ls[..ReadablePrefix(ls)] == ls;
    forall f
      ensures Get(Parse(d, ls).values, f) == Get(c, f)
    {
      LastAssignmentWins(d, ls, f);
      LinesAssign(c, KEY_MAP, f);
      Complete(f);
    }
    LastAssignmentWins(d, ls, RpcPort);
    Extensional(Parse(d, ls).values, c);
  }
}
