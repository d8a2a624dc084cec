/**
 * Splitting source text into words (`str::split_whitespace`, restricted to the ASCII
 * whitespace characters) and its inverse, joining words with single spaces.
 */
module Lexer {

  /** The ASCII characters that `char::is_whitespace` accepts. */
  predicate IsWhitespace(c: char) {
    c == ' ' || c == '\t' || c == '\n' || c == '\U{B}' || c == '\U{C}' || c == '\r'
  }

  /** A word as `split_whitespace` yields it: non-empty, without whitespace. */
  predicate IsWord(w: string) {
    w != [] && forall i :: 0 <= i < |w| ==> !IsWhitespace(w[i])
  }

  predicate AllWords(ws: seq<string>) {
    forall i :: 0 <= i < |ws| ==> IsWord(ws[i])
  }

  /** Split `s`, where `word` holds the characters of a word not finished yet. */
  function Split(s: string, word: string): (ws: seq<string>)
    requires forall i :: 0 <= i < |word| ==> !IsWhitespace(word[i])
    ensures AllWords(ws)
    decreases |s|
  {
    if s == [] then
      if word == [] then [] else [word]
    else if IsWhitespace(s[0]) then
      if word == [] then Split(s[1..], []) else [word] + Split(s[1..], [])
    else
      Split(s[1..], word + [s[0]])
  }

  /** The words of `s`, in order. */
  function Tokenize(s: string): (ws: seq<string>)
    ensures AllWords(ws)
  {
    Split(s, [])
  }

  /** The words separated by single spaces, with no space before the first or after the last. */
  function Join(ws: seq<string>): string {
    if ws == [] then ""
    else if |ws| == 1 then ws[0]
    else ws[0] + " " + Join(ws[1..])
  }

  /** Each word followed by one space: the text the `string` statement builds before its final `pop`. */
  function Spaced(ws: seq<string>): string {
    if ws == [] then "" else Spaced(ws[..|ws| - 1]) + ws[|ws| - 1] + " "
  }

  /** Appending a word to at least one word adds a space and the word. */
  lemma {:induction false} JoinSnoc(ws: seq<string>, w: string)
    requires ws != []
    ensures Join(ws + [w]) == Join(ws) + " " + w
    decreases |ws|
  {
    if |ws| == 1 {
      assert ws + [w] == [ws[0], w];
      assert ([ws[0], w])[1..] == [w];
    } else {
      assert (ws + [w])[1..] == ws[1..] + [w];
      JoinSnoc(ws[1..], w);
    }
  }

  /** Dropping the last character of `Spaced(ws)` gives `Join(ws)`; there is one only when `ws` is non-empty. */
  lemma {:induction false} JoinSpaced(ws: seq<string>)
    ensures ws == [] <==> Spaced(ws) == ""
    ensures ws != [] ==> Spaced(ws)[..|Spaced(ws)| - 1] == Join(ws)
    decreases |ws|
  {
    if ws != [] {
      var init, last := ws[..|ws| - 1], ws[|ws| - 1];
      assert ws == init + [last];
      var s := Spaced(ws);
      assert s == Spaced(init) + last + " ";
      assert s[..|s| - 1] == Spaced(init) + last;
      if init == [] {
        assert Spaced(init) == "";
      } else {
        JoinSpaced(init);
        JoinSnoc(init, last);
        var u := Spaced(init);
        assert u == u[..|u| - 1] + " ";
      }
    }
  }

  /** Reading a whitespace-free stretch only extends the pending word. */
  lemma {:induction false} SplitWord(w: string, rest: string, word: string)
    requires forall i :: 0 <= i < |word| ==> !IsWhitespace(word[i])
    requires forall i :: 0 <= i < |w| ==> !IsWhitespace(w[i])
    ensures Split(w + rest, word) == Split(rest, word + w)
    decreases |w|
  {
    if w != [] {
      assert (w + rest)[0] == w[0];
      assert (w + rest)[1..] == w[1..] + rest;
      SplitWord(w[1..], rest, word + [w[0]]);
      assert word + [w[0]] + w[1..] == word + w;
    } else {
      assert w + rest == rest;
      assert word + w == word;
    }
  }

  /** Splitting the joined words gives the words back. */
  lemma {:induction false} TokenizeJoin(ws: seq<string>)
    requires AllWords(ws)
    ensures Tokenize(Join(ws)) == ws
  {
    if |ws| == 1 {
      SplitWord(ws[0], [], []);
      assert ws[0] + [] == ws[0];
    } else if |ws| > 1 {
      var rest := " " + Join(ws[1..]);
      SplitWord(ws[0], rest, []);
      assert [] + ws[0] == ws[0];
      assert rest[0] == ' ' && rest[1..] == Join(ws[1..]);
      TokenizeJoin(ws[1..]);
      assert Join(ws) == ws[0] + rest;
      assert Split(rest, ws[0]) == [ws[0]] + Split(Join(ws[1..]), []);
    }
  }
}
