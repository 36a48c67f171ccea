/** How the command line of the firmware takes a line of text apart, as far as the OTA service is concerned. */
module CliLine {
  import opened Bytes

  const TAB: byte := 9
  const LF: byte := 10
  const CR: byte := 13
  const SPACE: byte := 32
  const OTA: seq<byte> := [111, 116, 97]
  const ABORT: seq<byte> := [97, 98, 111, 114, 116]

  function CString(s: seq<byte>): seq<byte> {
    if s == [] || s[0] == 0 then [] else [s[0]] + CString(s[1..])
  }

  predicate EndsLine(b: byte) { b == CR || b == LF || b == SPACE }

  function StripEnd(s: seq<byte>): seq<byte> {
    if s != [] && EndsLine(s[|s| - 1]) then StripEnd(s[..|s| - 1]) else s
  }

  function SkipBlanks(s: seq<byte>): seq<byte> {
    if s != [] && (s[0] == SPACE || s[0] == TAB) then SkipBlanks(s[1..]) else s
  }

  function SkipSpaces(s: seq<byte>): (r: seq<byte>)
    ensures |r| <= |s| && (r != [] ==> r[0] != SPACE)
  {
    if s != [] && s[0] == SPACE then SkipSpaces(s[1..]) else s
  }

  /** The text up to the next space. */
  function Word(s: seq<byte>): (r: seq<byte>)
    ensures |r| <= |s| && (s != [] && s[0] != SPACE ==> r != [])
  {
    if s == [] || s[0] == SPACE then [] else [s[0]] + Word(s[1..])
  }

  function Words(s: seq<byte>): seq<seq<byte>>
    decreases |s|
  {
    var t := SkipSpaces(s);
    if t == [] then [] else [Word(t)] + Words(t[|Word(t)|..])
  }

  /** The line orders the OTA session to be aborted. */
  predicate AbortsOta(line: seq<byte>) {
    var words := Words(SkipBlanks(StripEnd(CString(line))));
    |words| >= 2 && words[0] == OTA && words[1] == ABORT
  }

  // ---------- lines of two words ----------

  predicate Plain(word: seq<byte>) {
    word != [] && forall i :: 0 <= i < |word| ==> word[i] != 0 && word[i] != TAB && !EndsLine(word[i])
  }

  lemma {:induction false} CStringWhole(s: seq<byte>)
    requires forall i :: 0 <= i < |s| ==> s[i] != 0
    ensures CString(s) == s
    decreases |s|
  {
    if s != [] {
      CStringWhole(s[1..]);
    }
  }

  lemma {:induction false} WordAlone(word: seq<byte>, rest: seq<byte>)
    requires forall i :: 0 <= i < |word| ==> word[i] != SPACE
    requires rest == [] || rest[0] == SPACE
    ensures Word(word + rest) == word
    decreases |word|
  {
    if word == [] {
      assert word + rest == rest;
    } else {
      WordAlone(word[1..], rest);
      assert (word + rest)[1..] == word[1..] + rest;
    }
  }

  lemma WordsOne(word: seq<byte>)
    requires Plain(word)
    ensures Words([SPACE] + word) == [word]
  {
    assert ([SPACE] + word)[1..] == word;
    assert SkipSpaces(word) == word;
    assert SkipSpaces([SPACE] + word) == word;
    WordAlone(word, []);
    assert word + [] == word && word[|word|..] == [];
    assert Words([]) == [];
  }

  /** A plain line of two words aborts exactly when it says so. */
  lemma TwoWords(first: seq<byte>, second: seq<byte>)
    requires Plain(first) && Plain(second)
    ensures AbortsOta(first + [SPACE] + second) <==> first == OTA && second == ABORT
  {
    hide CString, StripEnd, SkipBlanks, Words;
    var line := first + [SPACE] + second;
    CStringWhole(line);
    NothingToStrip(line);
    assert line == first + ([SPACE] + second);
    TwoWordsSplit(first, second);
  }

  lemma NothingToStrip(line: seq<byte>)
    requires line != [] && !EndsLine(line[|line| - 1]) && line[0] != SPACE && line[0] != TAB
    ensures StripEnd(line) == line && SkipBlanks(line) == line
  {}

  lemma TwoWordsSplit(first: seq<byte>, second: seq<byte>)
    requires Plain(first) && Plain(second)
    ensures Words(first + ([SPACE] + second)) == [first, second]
  {
    var rest := [SPACE] + second;
    var line := first + rest;
    assert SkipSpaces(line) == line;
    WordAlone(first, rest);
    assert line[|first|..] == rest;
    WordsOne(second);
    assert Words(line) == [first] + Words(rest);
  }

  // ---------- lines with anything around the words ----------

  predicate Only(s: seq<byte>, allowed: set<byte>) {
    forall i :: 0 <= i < |s| ==> s[i] in allowed
  }

  lemma {:induction false} CStringEnds(s: seq<byte>, junk: seq<byte>)
    requires (forall i :: 0 <= i < |s| ==> s[i] != 0) && (junk == [] || junk[0] == 0)
    ensures CString(s + junk) == s
    decreases |s|
  {
    if s == [] {
      assert s + junk == junk;
    } else {
      CStringEnds(s[1..], junk);
      assert (s + junk)[1..] == s[1..] + junk;
    }
  }

  lemma {:induction false} EndStripped(s: seq<byte>, tail: seq<byte>)
    requires s != [] && !EndsLine(s[|s| - 1]) && Only(tail, {10, 13, 32})
    ensures StripEnd(s + tail) == s
    decreases |tail|
  {
    if tail == [] {
      assert s + tail == s;
    } else {
      var n := |tail| - 1;
      assert (s + tail)[..|s + tail| - 1] == s + tail[..n] && (s + tail)[|s + tail| - 1] == tail[n];
      EndStripped(s, tail[..n]);
    }
  }

  lemma {:induction false} BlanksSkipped(lead: seq<byte>, s: seq<byte>)
    requires Only(lead, {9, 32}) && s != [] && s[0] != SPACE && s[0] != TAB
    ensures SkipBlanks(lead + s) == s
    decreases |lead|
  {
    if lead == [] {
      assert lead + s == s;
    } else {
      BlanksSkipped(lead[1..], s);
      assert (lead + s)[1..] == lead[1..] + s;
    }
  }

  lemma {:induction false} SpacesSkipped(gap: seq<byte>, s: seq<byte>)
    requires Only(gap, {32}) && s != [] && s[0] != SPACE
    ensures SkipSpaces(gap + s) == s
    decreases |gap|
  {
    if gap == [] {
      assert gap + s == s;
    } else {
      SpacesSkipped(gap[1..], s);
      assert (gap + s)[1..] == gap[1..] + s;
    }
  }

  lemma FirstWord(gap: seq<byte>, word: seq<byte>, rest: seq<byte>)
    requires Only(gap, {32}) && Plain(word) && (rest == [] || rest[0] == SPACE)
    ensures Words(gap + word + rest) == [word] + Words(rest)
  {
    var line := word + rest;
    SpacesSkipped(gap, line);
    assert gap + word + rest == gap + line;
    WordAlone(word, rest);
    assert line[|word|..] == rest;
  }

  /** Blanks and tabs in front of the line, more than one space between the words, further words, line ends and spaces
      behind them, and everything from a zero byte on make no difference: the line aborts exactly when its first two
      words say so. */
  lemma PaddedLine(lead: seq<byte>, first: seq<byte>, gap: seq<byte>, second: seq<byte>, more: seq<byte>,
                   tail: seq<byte>, junk: seq<byte>)
    requires Only(lead, {9, 32}) && Only(gap, {32}) && gap != [] && Only(tail, {10, 13, 32})
    requires Plain(first) && Plain(second) && (junk == [] || junk[0] == 0)
    requires forall i :: 0 <= i < |more| ==> more[i] != 0
    requires more == [] || (more[0] == 32 && more[|more| - 1] !in {10, 13, 32})
    ensures AbortsOta(lead + first + gap + second + more + tail + junk)
       <==> first == [0x6F, 0x74, 0x61] && second == [0x61, 0x62, 0x6F, 0x72, 0x74]
  {
    hide CString, StripEnd, SkipBlanks, Words, Plain;
    var words := first + gap + second + more;
    WordsIn(first, gap, second, more);
    NoZeros(lead, first, gap, second, more, tail);
    assert lead + first + gap + second + more + tail + junk == lead + words + tail + junk;
    CStringEnds(lead + words + tail, junk);
    PlainEnds(first, gap, second, more);
    assert (lead + words)[|lead + words| - 1] == words[|words| - 1];
    EndStripped(lead + words, tail);
    BlanksSkipped(lead, words);
  }

  lemma PlainEnds(first: seq<byte>, gap: seq<byte>, second: seq<byte>, more: seq<byte>)
    requires Plain(first) && Plain(second)
    requires more == [] || (more[0] == 32 && more[|more| - 1] !in {10, 13, 32})
    ensures var words := first + gap + second + more;
            words != [] && words[0] != SPACE && words[0] != TAB && !EndsLine(words[|words| - 1])
  {
    var words := first + gap + second + more;
    assert words[0] == first[0];
    assert words[|words| - 1] == if more == [] then second[|second| - 1] else more[|more| - 1];
  }

  lemma NoZeros(lead: seq<byte>, first: seq<byte>, gap: seq<byte>, second: seq<byte>, more: seq<byte>,
                tail: seq<byte>)
    requires Only(lead, {9, 32}) && Only(gap, {32}) && Only(tail, {10, 13, 32}) && Plain(first) && Plain(second)
    requires forall i :: 0 <= i < |more| ==> more[i] != 0
    ensures var line := lead + (first + gap + second + more) + tail; forall i :: 0 <= i < |line| ==> line[i] != 0
  {}

  lemma WordsIn(first: seq<byte>, gap: seq<byte>, second: seq<byte>, more: seq<byte>)
    requires Plain(first) && Plain(second) && Only(gap, {32}) && gap != [] && (more == [] || more[0] == SPACE)
    ensures var w := Words(first + gap + second + more); |w| >= 2 && w[0] == first && w[1] == second
  {
    hide Words, Plain;
    var rest := gap + second + more;
    FirstWord([], first, rest);
    assert [] + first + rest == first + gap + second + more;
    FirstWord(gap, second, more);
    assert rest[0] == SPACE;
  }

  /** Fewer than four bytes have no room for two such words. */
  lemma ShortLine(line: seq<byte>)
    requires |line| < 4
    ensures !AbortsOta(line)
  {
    hide CString, StripEnd, SkipBlanks, Words;
    CStringShorter(line);
    StripShorter(CString(line));
    SkipShorter(StripEnd(CString(line)));
    FirstIsShort(SkipBlanks(StripEnd(CString(line))));
  }

  lemma {:induction false} CStringShorter(s: seq<byte>)
    ensures |CString(s)| <= |s|
    decreases |s|
  {
    if s != [] && s[0] != 0 {
      CStringShorter(s[1..]);
    }
  }

  lemma {:induction false} StripShorter(s: seq<byte>)
    ensures |StripEnd(s)| <= |s|
    decreases |s|
  {
    if s != [] && EndsLine(s[|s| - 1]) {
      StripShorter(s[..|s| - 1]);
    }
  }

  lemma {:induction false} SkipShorter(s: seq<byte>)
    ensures |SkipBlanks(s)| <= |s|
    decreases |s|
  {
    if s != [] && (s[0] == SPACE || s[0] == TAB) {
      SkipShorter(s[1..]);
    }
  }

  lemma FirstIsShort(s: seq<byte>)
    requires |s| < 4
    ensures var words := Words(s); !(|words| >= 2 && words[0] == OTA && words[1] == ABORT)
  {
    hide Word;
    var t := SkipSpaces(s);
    if t != [] {
      var rest := t[|Word(t)|..];
      var u := SkipSpaces(rest);
      if Word(t) == OTA {
        assert rest == [] && u == [];
      }
    }
  }
}
