/** How a query's white space is normalized, against a splitter that reads the text from its front. */
module QueryText {
  import opened Text

  /** The words of the text with single spaces between them. */
  function Squeezed(s: string): string {
    if s == "" then ""
    else
      var before, c := Squeezed(s[..|s| - 1]), s[|s| - 1];
      if IsWhitespace(c) then before
      else if before != "" && |s| > 1 && IsWhitespace(s[|s| - 2]) then before + [' ', c]
      else before + [c]
  }

  // ---------------------------------------------------------------- words

  predicate IsWord(w: string) { w != "" && forall i | 0 <= i < |w| :: !IsWhitespace(w[i]) }

  /** The length of the run of characters other than white space at the front. */
  function RunLength(s: string): (n: nat)
    ensures n <= |s| && (forall i | 0 <= i < n :: !IsWhitespace(s[i])) && (n < |s| ==> IsWhitespace(s[n]))
  {
    if s == "" || IsWhitespace(s[0]) then 0 else 1 + RunLength(s[1..])
  }

  /** The maximal runs of characters that are not white space. */
  function WordsOf(s: string): (ws: seq<string>)
    ensures forall w | w in ws :: IsWord(w)
  {
    if s == "" then []
    else if IsWhitespace(s[0]) then WordsOf(s[1..])
    else
      var n := RunLength(s);
      [s[..n]] + WordsOf(s[n..])
  }

  function Joined(ws: seq<string>): string {
    if ws == [] then ""
    else if |ws| == 1 then ws[0]
    else Joined(ws[..|ws| - 1]) + " " + ws[|ws| - 1]
  }

  /** One more character is dropped, lengthens the last word, or starts a word. */
  ghost predicate OneMore(s: string, c: char, ws: seq<string>, more: seq<string>) {
    if IsWhitespace(c) then more == ws
    else if s != "" && !IsWhitespace(s[|s| - 1]) then
      ws != [] && more == ws[..|ws| - 1] + [ws[|ws| - 1] + [c]]
    else more == ws + [[c]]
  }

  lemma {:induction false} RunLengthIs(s: string, n: nat)
    requires n <= |s| && (forall i | 0 <= i < n :: !IsWhitespace(s[i])) && (n < |s| ==> IsWhitespace(s[n]))
    ensures RunLength(s) == n
  {
    if n > 0 { RunLengthIs(s[1..], n - 1); }
  }

  lemma FirstWord(s: string, n: nat)
    requires 0 < n <= |s| && (forall i | 0 <= i < n :: !IsWhitespace(s[i])) && (n < |s| ==> IsWhitespace(s[n]))
    ensures WordsOf(s) == [s[..n]] + WordsOf(s[n..])
  {
    RunLengthIs(s, n);
  }

  lemma OneWord(s: string)
    requires IsWord(s)
    ensures WordsOf(s) == [s]
  {
    FirstWord(s, |s|);
    assert s[..|s|] == s && s[|s|..] == "";
  }

  lemma {:induction false} WordsGrow(s: string, c: char)
    ensures OneMore(s, c, WordsOf(s), WordsOf(s + [c]))
  {
    var t := s + [c];
    if s == "" {
      assert t == [c] && t[1..] == "" && WordsOf(s) == [] && WordsOf(t[1..]) == [];
      if !IsWhitespace(c) { OneWord(t); }
    } else if IsWhitespace(s[0]) {
      assert t[1..] == s[1..] + [c];
      WordsGrow(s[1..], c);
      assert WordsOf(s) == WordsOf(s[1..]) && WordsOf(t) == WordsOf(t[1..]);
      assert |s| > 1 ==> s[1..][|s| - 2] == s[|s| - 1];
    } else if RunLength(s) == |s| {
      LastWordGrows(s, c);
    } else {
      var n := RunLength(s);
      WordsGrow(s[n..], c);
      assert t[n..] == s[n..] + [c] && t[..n] == s[..n];
      FirstWord(t, n);
      FirstWord(s, n);
      LaterWordsGrow(s, c, n, WordsOf(s[n..]), WordsOf(t[n..]));
    }
  }

  lemma LastWordGrows(s: string, c: char)
    requires IsWord(s)
    ensures OneMore(s, c, WordsOf(s), WordsOf(s + [c]))
  {
    var t := s + [c];
    OneWord(s);
    if IsWhitespace(c) {
      FirstWord(t, |s|);
      assert t[..|s|] == s && t[|s|..] == [c] && [c][1..] == "";
    } else {
      OneWord(t);
    }
  }

  lemma LaterWordsGrow(s: string, c: char, n: nat, ws: seq<string>, more: seq<string>)
    requires 0 < n < |s| && OneMore(s[n..], c, ws, more)
    ensures OneMore(s, c, [s[..n]] + ws, [s[..n]] + more)
  {
    assert s[n..][|s| - n - 1] == s[|s| - 1];
  }

  lemma JoinNext(ws: seq<string>, w: string)
    ensures Joined(ws + [w]) == if ws == [] then w else Joined(ws) + " " + w
  {
    assert (ws + [w])[..|ws|] == ws;
  }

  lemma AppendsLast(a: string, b: string, c: char)
    ensures a + (b + [c]) == (a + b) + [c]
  {
  }

  lemma JoinLonger(ws: seq<string>, front: seq<string>, last: string, c: char)
    requires ws == front + [last]
    ensures Joined(front + [last + [c]]) == Joined(ws) + [c]
  {
    JoinNext(front, last);
    JoinNext(front, last + [c]);
    AppendsLast(Joined(front) + " ", last, c);
  }

  lemma JoinedIsEmpty(ws: seq<string>)
    requires forall w | w in ws :: IsWord(w)
    ensures Joined(ws) == "" <==> ws == []
  {
    if |ws| == 1 {
      assert ws[0] in ws;
    } else if ws != [] {
      assert Joined(ws) == Joined(ws[..|ws| - 1]) + " " + ws[|ws| - 1];
    }
  }

  lemma JoinGrows(s: string, c: char, ws: seq<string>, more: seq<string>)
    requires OneMore(s, c, ws, more) && (s == "" ==> ws == []) && forall w | w in ws :: IsWord(w)
    ensures Joined(more) ==
      if IsWhitespace(c) then Joined(ws)
      else if Joined(ws) != "" && s != "" && IsWhitespace(s[|s| - 1]) then Joined(ws) + [' ', c]
      else Joined(ws) + [c]
  {
    JoinedIsEmpty(ws);
    if IsWhitespace(c) {
      assert more == ws;
    } else if s != "" && !IsWhitespace(s[|s| - 1]) {
      JoinLonger(ws, ws[..|ws| - 1], ws[|ws| - 1], c);
    } else {
      JoinNext(ws, [c]);
      assert Joined(ws) + [' ', c] == Joined(ws) + " " + [c];
    }
  }

  /** Squeezing gives the words, one space between each and the next. */
  lemma {:induction false} SqueezedJoinsTheWords(s: string)
    ensures Squeezed(s) == Joined(WordsOf(s))
  {
    if s != "" {
      var before, c := s[..|s| - 1], s[|s| - 1];
      SqueezedJoinsTheWords(before);
      WordsGrow(before, c);
      assert s == before + [c];
      JoinGrows(before, c, WordsOf(before), WordsOf(s));
    }
  }

  // ---------------------------------------------------------------- nothing is lost

  lemma {:induction false} AppendWord(s: string, w: string)
    requires IsWord(w)
    ensures WordsOf(s + " " + w) == WordsOf(s) + [w]
  {
    var c := w[|w| - 1];
    WordsGrow(s, ' ');
    if |w| == 1 {
      WordsGrow(s + " ", c);
      assert w == [c];
    } else {
      var shorter := w[..|w| - 1];
      AppendWord(s, shorter);
      WordsGrow(s + " " + shorter, c);
      assert s + " " + w == s + " " + shorter + [c];
      assert shorter + [c] == w;
    }
  }

  lemma {:induction false} JoinedSplits(ws: seq<string>)
    requires forall w | w in ws :: IsWord(w)
    ensures WordsOf(Joined(ws)) == ws
  {
    if |ws| == 1 {
      OneWord(ws[0]);
    } else if ws != [] {
      var front, last := ws[..|ws| - 1], ws[|ws| - 1];
      JoinedSplits(front);
      AppendWord(Joined(front), last);
    }
  }

  /** Squeezing keeps the words, so two texts are squeezed to the same exactly when their words are the same. */
  lemma SqueezedAlikeExactly(s: string, t: string)
    ensures WordsOf(Squeezed(s)) == WordsOf(s)
    ensures Squeezed(s) == Squeezed(t) <==> WordsOf(s) == WordsOf(t)
  {
    SqueezedJoinsTheWords(s);
    SqueezedJoinsTheWords(t);
    JoinedSplits(WordsOf(s));
    JoinedSplits(WordsOf(t));
  }

  /** What is squeezed neither starts nor ends with white space, and all it has inside are single spaces. */
  lemma {:induction false} SqueezedHasNoStraySpace(s: string)
    ensures var r := Squeezed(s);
      && (r != "" ==> !IsWhitespace(r[0]) && !IsWhitespace(r[|r| - 1]))
      && (forall i | 0 <= i < |r| && IsWhitespace(r[i]) :: r[i] == ' ')
      && (forall i | 0 < i < |r| :: !IsWhitespace(r[i - 1]) || !IsWhitespace(r[i]))
  {
    if s != "" { SqueezedHasNoStraySpace(s[..|s| - 1]); }
  }
}
