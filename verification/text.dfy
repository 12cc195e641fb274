/** The two string operations every lexical computation of the system is built
    from: `str.lower()` and the argument-less `str.split()`. */
module Text {

  /** The characters `str.split()` treats as separators (those for which
      `str.isspace()` holds). */
  predicate IsSpace(c: char) {
    || c == ' ' || c == '\t' || c == '\n' || c == '\r'
    || c == '\U{000B}' || c == '\U{000C}'
    || ('\U{001C}' <= c <= '\U{001F}')
    || c == '\U{0085}' || c == '\U{00A0}' || c == '\U{1680}'
    || ('\U{2000}' <= c <= '\U{200A}')
    || c == '\U{2028}' || c == '\U{2029}' || c == '\U{202F}'
    || c == '\U{205F}' || c == '\U{3000}'
  }

  /** Lower-casing of one character (ASCII letters only). */
  function LowerChar(c: char): char {
    if 'A' <= c <= 'Z' then (c as int + 32) as char else c
  }

  /** `s.lower()`: same length, separators stay where they were. */
  function Lower(s: string): (r: string)
    ensures |r| == |s|
    ensures forall i :: 0 <= i < |s| ==> (IsSpace(r[i]) <==> IsSpace(s[i]))
  {
    seq(|s|, i requires 0 <= i < |s| => LowerChar(s[i]))
  }

  /** Length of the run of non-separator characters that starts `s`. */
  function TokenLen(s: string): (n: nat)
    ensures n <= |s|
    ensures forall i :: 0 <= i < n ==> !IsSpace(s[i])
    ensures n < |s| ==> IsSpace(s[n])
  {
    if s == [] || IsSpace(s[0]) then 0 else 1 + TokenLen(s[1..])
  }

  /** `s.split()`: the maximal runs of non-separator characters, in order.
      Leading, trailing and repeated separators produce no empty words. */
  function Words(s: string): (ws: seq<string>)
    ensures |ws| <= |s|
    decreases |s|
  {
    if s == [] then []
    else if IsSpace(s[0]) then Words(s[1..])
    else
      var n := TokenLen(s);
      [s[..n]] + Words(s[n..])
  }

  /** `len(s.split())` */
  function WordCount(s: string): (n: nat)
    ensures n <= |s|
  {
    |Words(s)|
  }

  /** `set(s.lower().split())` */
  function WordSet(s: string): (r: set<string>)
    ensures r == {} <==> WordCount(s) == 0
    ensures forall w :: w in r ==> IsWord(w)
  {
    LowerKeepsWordCount(s);
    WordsAreWords(Lower(s));
    var r := set w | w in Words(Lower(s));
    assert WordCount(s) != 0 ==> Words(Lower(s))[0] in r;
    r
  }

  /** A word ends at the first separator: what follows it does not matter. */
  lemma {:induction false} TokenLenStopsAtSpace(x: string, c: char, y: string)
    requires IsSpace(c)
    ensures TokenLen(x + [c] + y) == TokenLen(x)
  {
    if x != [] && !IsSpace(x[0]) {
      assert (x + [c] + y)[1..] == x[1..] + [c] + y;
      TokenLenStopsAtSpace(x[1..], c, y);
    }
  }

  /** A leading separator contributes no word. */
  lemma WordsAfterSpace(s: string)
    requires s != [] && IsSpace(s[0])
    ensures Words(s) == Words(s[1..])
  {
  }

  /** A leading word is the first word. */
  lemma WordsAfterWord(s: string)
    requires s != [] && !IsSpace(s[0])
    ensures Words(s) == [s[..TokenLen(s)]] + Words(s[TokenLen(s)..])
  {
  }

  /** Splitting at a separator splits the word list: the words of `x c y` are
      the words of `x` followed by the words of `y`. */
  lemma {:induction false} WordsSplitAtSpace(x: string, c: char, y: string)
    requires IsSpace(c)
    ensures Words(x + [c] + y) == Words(x) + Words(y)
    decreases |x|
  {
    var s := x + [c] + y;
    if x == [] {
      assert s[1..] == y;
      WordsAfterSpace(s);
    } else if IsSpace(x[0]) {
      assert s[1..] == x[1..] + [c] + y;
      WordsAfterSpace(s);
      WordsAfterSpace(x);
      WordsSplitAtSpace(x[1..], c, y);
    } else {
      TokenLenStopsAtSpace(x, c, y);
      var n := TokenLen(x);
      assert s[..n] == x[..n];
      assert s[n..] == x[n..] + [c] + y;
      WordsAfterWord(s);
      WordsAfterWord(x);
      WordsSplitAtSpace(x[n..], c, y);
    }
  }

  /** Lower-casing never creates or removes a separator, so it keeps the
      number of words. */
  lemma {:induction false} LowerKeepsWordCount(s: string)
    ensures WordCount(Lower(s)) == WordCount(s)
    decreases |s|
  {
    var l := Lower(s);
    if s != [] {
      if IsSpace(s[0]) {
        assert l[1..] == Lower(s[1..]);
        LowerKeepsWordCount(s[1..]);
      } else {
        LowerKeepsTokenLen(s);
        var n := TokenLen(s);
        assert l[n..] == Lower(s[n..]);
        LowerKeepsWordCount(s[n..]);
      }
    }
  }

  lemma {:induction false} LowerKeepsTokenLen(s: string)
    ensures TokenLen(Lower(s)) == TokenLen(s)
  {
    if s != [] && !IsSpace(s[0]) {
      assert Lower(s)[1..] == Lower(s[1..]);
      LowerKeepsTokenLen(s[1..]);
    }
  }

  /** Lower-casing is applied character by character and leaves separators
      alone, so it commutes with splitting at a separator. */
  lemma LowerAtSpace(x: string, c: char, y: string)
    requires IsSpace(c)
    ensures Lower(x + [c] + y) == Lower(x) + [c] + Lower(y)
  {
  }

  /** A single word: non-empty, without separators. */
  predicate IsWord(w: string) {
    w != [] && forall i :: 0 <= i < |w| ==> !IsSpace(w[i])
  }

  /** The words `ws`, each preceded by one space. */
  function Spaced(ws: seq<string>): string {
    if ws == [] then [] else [' '] + ws[0] + Spaced(ws[1..])
  }

  /** Every word `split()` produces is non-empty and free of separators. */
  lemma {:induction false} WordsAreWords(s: string)
    ensures forall w :: w in Words(s) ==> IsWord(w)
    decreases |s|
  {
    if s != [] {
      if IsSpace(s[0]) {
        WordsAreWords(s[1..]);
      } else {
        WordsAreWords(s[TokenLen(s)..]);
      }
    }
  }

  /** A single word splits into itself. */
  lemma WordsOfWord(w: string)
    requires IsWord(w)
    ensures Words(w) == [w]
  {
    assert TokenLen(w) == |w|;
    assert w[..|w|] == w;
  }

  /** Appending space-separated words appends exactly those words. */
  lemma {:induction false} WordsAppendSpaced(x: string, ws: seq<string>)
    requires forall w :: w in ws ==> IsWord(w)
    ensures Words(x + Spaced(ws)) == Words(x) + ws
    decreases |ws|
  {
    if ws == [] {
      assert x + Spaced(ws) == x;
    } else {
      var x' := x + [' '] + ws[0];
      assert x + Spaced(ws) == x' + Spaced(ws[1..]);
      WordsAppendSpaced(x', ws[1..]);
      WordsSplitAtSpace(x, ' ', ws[0]);
      WordsOfWord(ws[0]);
    }
  }
}
